/** The paletted containers of chunk packets (src/protocol/packets.cpp): values are replaced by indices
    into a palette and packed into 64-bit words, unless the palette has one entry or too many. */
module Palette {
  import opened Arithmetic
  import opened Bytes
  import opened Sequences
  import opened Varints
  import opened Wrappers

  // ---------------------------------------------------------------------------------------
  // Packing
  // ---------------------------------------------------------------------------------------

  lemma SixteenBits()
    ensures Pow2(16) == 0x1_0000
  {
    Pow2Sum(8, 8);
  }

  lemma {:induction false} RangeIsPow2(n: nat)
    ensures Range(n) == Pow2(8 * n)
  {
    if n > 0 {
      RangeIsPow2(n - 1);
      Pow2Sum(8, 8 * (n - 1));
    }
  }

  predicate AllBelow(values: seq<nat>, limit: nat) {
    forall i :: 0 <= i < |values| ==> values[i] < limit
  }

  /** A word holding `values` as digits, the first lowest; the base is two to the number of bits. */
  function Word(values: seq<nat>, base: nat): nat {
    if values == [] then 0 else values[0] + base * Word(values[1..], base)
  }

  lemma {:induction false} WordRange(values: seq<nat>, bits: nat)
    requires AllBelow(values, Pow2(bits))
    ensures Word(values, Pow2(bits)) < Pow2(bits * |values|)
  {
    if values == [] {
      assert bits * |values| == 0;
    } else {
      var w, p := Word(values[1..], Pow2(bits)), Pow2(bits * (|values| - 1));
      WordRange(values[1..], bits);
      Pow2Sum(bits, bits * (|values| - 1));
      assert bits + bits * (|values| - 1) == bits * |values|;
      Carry(Pow2(bits), w, p);
    }
  }

  lemma Carry(base: nat, w: nat, p: nat)
    requires w < p
    ensures base * w + base <= base * p
  {
    assert base * (w + 1) <= base * p;
  }

  /** One more value goes above those already in the word, where its bits are still zero. */
  lemma {:induction false} WordAppend(values: seq<nat>, v: nat, bits: nat)
    ensures Word(values + [v], Pow2(bits)) == Word(values, Pow2(bits)) + v * Pow2(bits * |values|)
  {
    var base := Pow2(bits);
    if values == [] {
      assert values + [v] == [v] && Word([v][1..], base) == 0;
      assert bits * |values| == 0;
    } else {
      var rest := values[1..];
      WordAppend(rest, v, bits);
      assert (values + [v])[1..] == rest + [v];
      Pow2Sum(bits, bits * |rest|);
      assert bits + bits * |rest| == bits * |values|;
      Distribute(base, Word(rest, base), v, Pow2(bits * |rest|));
    }
  }

  lemma Distribute(b: nat, w: nat, v: nat, p: nat)
    ensures b * (w + v * p) == b * w + v * (b * p)
  {
  }

  /** The values of a word, lowest first. */
  function Unpack(word: nat, count: nat, base: nat): (values: seq<nat>)
    requires base > 0
    ensures |values| == count
    decreases count
  {
    if count == 0 then [] else [Low(word, base)] + Unpack(High(word, base), count - 1, base)
  }

  lemma {:induction false} UnpackWord(values: seq<nat>, base: nat)
    requires base > 0 && AllBelow(values, base)
    ensures Unpack(Word(values, base), |values|, base) == values
  {
    if values != [] {
      LowHigh(values[0], base, Word(values[1..], base));
      UnpackWord(values[1..], base);
    }
  }

  /** Value `i` is bits `i * bits` to `(i + 1) * bits` of its word, so none straddles two words. */
  lemma {:induction false} DigitAt(values: seq<nat>, i: nat, bits: nat)
    requires AllBelow(values, Pow2(bits)) && i < |values|
    ensures Low(High(Word(values, Pow2(bits)), Pow2(bits * i)), Pow2(bits)) == values[i]
  {
    var base := Pow2(bits);
    if i == 0 {
      assert bits * i == 0;
      LowHigh(0, 1, Word(values, base));
      LowHigh(values[0], base, Word(values[1..], base));
    } else {
      DigitAt(values[1..], i - 1, bits);
      Pow2Sum(bits, bits * (i - 1));
      assert bits + bits * (i - 1) == bits * i;
      HighTwice(values[0], base, Word(values[1..], base), Pow2(bits * (i - 1)));
    }
  }

  function Least(a: nat, b: nat): nat {
    if a <= b then a else b
  }

  /** `per` values of `bits` bits each fit a word. */
  predicate FitsWord(bits: nat, per: nat) {
    per > 0 && bits * per <= 64
  }

  /** The words as bytes, each holding as many whole values as it takes. */
  function Words(values: seq<nat>, bits: nat, per: nat): seq<byte>
    requires per > 0
  {
    if values == [] then []
    else
      var n := Least(|values|, per);
      BigEndian(Word(values[..n], Pow2(bits)), 8) + Words(values[n..], bits, per)
  }

  /** Reads `count` values, `per` a word. */
  function ReadWords(b: seq<byte>, count: nat, bits: nat, per: nat): Option<(seq<nat>, seq<byte>)>
    requires per > 0
    decreases count
  {
    if count == 0 then Some(([], b))
    else if |b| < 8 then None
    else
      var n := Least(count, per);
      var more := ReadWords(b[8..], count - n, bits, per);
      if more.None? then None
      else Some((Unpack(FromBigEndian(b[..8]), n, Pow2(bits)) + more.value.0, more.value.1))
  }

  lemma BitsUsed(bits: nat, n: nat, per: nat)
    requires FitsWord(bits, per) && n <= per
    ensures 0 <= bits * n <= 64
  {
    MulOrder(per, n, bits);
  }

  lemma OneWord(values: seq<nat>, bits: nat, per: nat)
    requires FitsWord(bits, per) && |values| <= per && AllBelow(values, Pow2(bits))
    ensures Word(values, Pow2(bits)) < Range(8)
    ensures Unpack(FromBigEndian(BigEndian(Word(values, Pow2(bits)), 8)), |values|, Pow2(bits)) == values
  {
    WordRange(values, bits);
    BitsUsed(bits, |values|, per);
    Pow2Monotone(bits * |values|, 64);
    RangeIsPow2(8);
    BigEndianRoundTrip(Word(values, Pow2(bits)), 8);
    UnpackWord(values, Pow2(bits));
  }

  lemma {:induction false} WordsRoundTrip(values: seq<nat>, bits: nat, per: nat, rest: seq<byte>)
    requires FitsWord(bits, per) && AllBelow(values, Pow2(bits))
    ensures ReadWords(Words(values, bits, per) + rest, |values|, bits, per) == Some((values, rest))
    decreases |values|
  {
    if values == [] {
      assert Words(values, bits, per) + rest == rest;
    } else {
      var n := Least(|values|, per);
      WordsRoundTrip(values[n..], bits, per, rest);
      FirstWordReads(values, bits, per, n, rest);
    }
  }

  lemma FirstWordReads(values: seq<nat>, bits: nat, per: nat, n: nat, rest: seq<byte>)
    requires FitsWord(bits, per) && AllBelow(values, Pow2(bits)) && values != [] && n == Least(|values|, per)
    requires ReadWords(Words(values[n..], bits, per) + rest, |values| - n, bits, per) == Some((values[n..], rest))
    ensures ReadWords(Words(values, bits, per) + rest, |values|, bits, per) == Some((values, rest))
  {
    var word, more := BigEndian(Word(values[..n], Pow2(bits)), 8), Words(values[n..], bits, per);
    OneWord(values[..n], bits, per);
    Associative(word, more, rest);
    ReadNext(word, more + rest, |values|, bits, n, per);
    Halves(values, n);
  }

  lemma ReadNext(word: seq<byte>, after: seq<byte>, count: nat, bits: nat, n: nat, per: nat)
    requires per > 0 && |word| == 8 && count > 0 && n == Least(count, per)
    ensures ReadWords(word + after, count, bits, per) ==
            var more := ReadWords(after, count - n, bits, per);
            if more.None? then None
            else Some((Unpack(FromBigEndian(word), n, Pow2(bits)) + more.value.0, more.value.1))
  {
    assert (word + after)[..8] == word && (word + after)[8..] == after;
  }

  /** As many values as fit, and not one more. */
  function PerWord(bits: nat): (n: nat)
    requires 1 <= bits <= 16
    ensures FitsWord(bits, n) && bits * (n + 1) > 64
  {
    assert bits * (64 / bits) + 64 % bits == 64;
    assert bits * (64 / bits + 1) == bits * (64 / bits) + bits;
    64 / bits
  }

  function Packed(values: seq<nat>, bits: nat): seq<byte>
    requires 1 <= bits <= 16
  {
    Words(values, bits, PerWord(bits))
  }

  function ReadPacked(b: seq<byte>, count: nat, bits: nat): Option<(seq<nat>, seq<byte>)>
    requires 1 <= bits <= 16
  {
    ReadWords(b, count, bits, PerWord(bits))
  }

  lemma PackedRoundTrip(values: seq<nat>, bits: nat, rest: seq<byte>)
    requires 1 <= bits <= 16 && AllBelow(values, Pow2(bits))
    ensures ReadPacked(Packed(values, bits) + rest, |values|, bits) == Some((values, rest))
  {
    WordsRoundTrip(values, bits, PerWord(bits), rest);
  }

  /** `write_packed_values`.  A value is or-ed into bits that are still zero, which adds it. */
  method WritePacked(output: seq<byte>, values: seq<nat>, bits: nat) returns (r: seq<byte>)
    requires 1 <= bits <= 16 && AllBelow(values, Pow2(bits))
    ensures r == output + Packed(values, bits)
  {
    var valuesPerWord := PerWord(bits);
    var wordCount := High(|values| + valuesPerWord - 1, valuesPerWord);
    EnoughWords(|values|, valuesPerWord);
    r := WriteWords(output, values, bits, valuesPerWord, wordCount);
  }

  /** Enough words for `n` values, and none without a value. */
  predicate WordsNeeded(words: nat, n: nat, per: nat) {
    StartsAt(words, per) >= n && forall w :: 0 <= w < words ==> StartsAt(w, per) < n
  }

  /** The first value of word `w`: the product, defined by addition. */
  function StartsAt(w: nat, per: nat): nat {
    if w == 0 then 0 else StartsAt(w - 1, per) + per
  }

  lemma {:induction false} StartsAtProduct(w: nat, per: nat)
    ensures StartsAt(w, per) == w * per
  {
    if w > 0 {
      StartsAtProduct(w - 1, per);
      assert w * per == (w - 1) * per + per;
    }
  }

  lemma EnoughWords(n: nat, per: nat)
    requires per > 0
    ensures WordsNeeded(High(n + per - 1, per), n, per)
  {
    var words := (n + per - 1) / per;
    assert words * per + (n + per - 1) % per == n + per - 1;
    StartsAtProduct(words, per);
    forall w | 0 <= w < words ensures StartsAt(w, per) < n {
      MulOrder(w, words, per);
      StartsAtProduct(w, per);
      assert (w + 1) * per == w * per + per;
    }
  }

  /** The words for the values before `next` have been appended. */
  ghost predicate WrittenTo(output: seq<byte>, values: seq<nat>, bits: nat, per: nat, next: nat, r: seq<byte>) {
    && per > 0 && next <= |values|
    && r + Words(values[next..], bits, per) == output + Words(values, bits, per)
  }

  lemma WrittenEnds(output: seq<byte>, values: seq<nat>, bits: nat, per: nat, r: seq<byte>)
    requires per > 0
    ensures WrittenTo(output, values, bits, per, 0, output)
    ensures WrittenTo(output, values, bits, per, |values|, r) ==> r == output + Words(values, bits, per)
  {
    assert values[0..] == values && values[|values|..] == [] && r + [] == r;
  }

  method WriteWords(output: seq<byte>, values: seq<nat>, bits: nat, per: nat, wordCount: nat) returns (r: seq<byte>)
    requires FitsWord(bits, per) && AllBelow(values, Pow2(bits)) && WordsNeeded(wordCount, |values|, per)
    ensures r == output + Words(values, bits, per)
  {
    r := output;
    var w := 0;
    WrittenEnds(output, values, bits, per, r);
    while w < wordCount
      invariant w <= wordCount && WrittenTo(output, values, bits, per, Least(StartsAt(w, per), |values|), r)
    {
      r := WriteWord(r, values, StartsAt(w, per), bits, per, output);
      w := w + 1;
    }
    WrittenEnds(output, values, bits, per, r);
  }

  method WriteWord(r: seq<byte>, values: seq<nat>, start: nat, bits: nat, per: nat, ghost output: seq<byte>)
    returns (next: seq<byte>)
    requires FitsWord(bits, per) && AllBelow(values, Pow2(bits)) && start < |values|
    requires WrittenTo(output, values, bits, per, start, r)
    ensures WrittenTo(output, values, bits, per, Least(start + per, |values|), next)
  {
    var word := PackWord(values, start, bits, per);
    WordDone(output, values, bits, per, start, r, word);
    return r + BigEndian(word, 8);
  }

  lemma WordDone(output: seq<byte>, values: seq<nat>, bits: nat, per: nat, start: nat, r: seq<byte>, word: nat)
    requires WrittenTo(output, values, bits, per, start, r) && start < |values|
    requires word == Word(values[start..start + Least(|values| - start, per)], Pow2(bits))
    ensures WrittenTo(output, values, bits, per, Least(start + per, |values|), r + BigEndian(word, 8))
  {
    var n := Least(|values| - start, per);
    assert Least(start + per, |values|) == start + n;
    WordsFrom(values, start, n, bits, per);
    Associative(r, BigEndian(word, 8), Words(values[start + n..], bits, per));
  }

  lemma WordsFrom(values: seq<nat>, start: nat, n: nat, bits: nat, per: nat)
    requires per > 0 && start < |values| && n == Least(|values| - start, per)
    ensures Words(values[start..], bits, per) ==
            BigEndian(Word(values[start..start + n], Pow2(bits)), 8) + Words(values[start + n..], bits, per)
  {
    assert values[start..][..n] == values[start..start + n];
    assert values[start..][n..] == values[start + n..];
  }

  /** One word, from `start` on. */
  method PackWord(values: seq<nat>, start: nat, bits: nat, per: nat) returns (word: nat)
    requires FitsWord(bits, per) && AllBelow(values, Pow2(bits)) && start < |values|
    ensures word == Word(values[start..start + Least(|values| - start, per)], Pow2(bits))
    ensures word < Range(8)
  {
    word := 0;
    var i := 0;
    while i < per
      invariant i <= per && start + i <= |values| && word == Word(values[start..start + i], Pow2(bits))
    {
      if start + i == |values| {
        break;
      }
      WordAppend(values[start..start + i], values[start + i], bits);
      assert values[start..start + i] + [values[start + i]] == values[start..start + i + 1];
      word := word + values[start + i] * Pow2(bits * i);
      i := i + 1;
    }
    OneWord(values[start..start + i], bits, per);
  }

  // ---------------------------------------------------------------------------------------
  // The palette
  // ---------------------------------------------------------------------------------------

  /** The different values, in the order they first occur. */
  function Distinct(values: seq<nat>): (p: seq<nat>)
    ensures forall v :: v in values <==> v in p
    ensures forall i, j :: 0 <= i < j < |p| ==> p[i] != p[j]
    ensures |p| <= |values| && (values != [] ==> p != [])
  {
    if values == [] then []
    else
      var p := Distinct(values[..|values| - 1]);
      var last := values[|values| - 1];
      assert values == values[..|values| - 1] + [last];
      if last in p then p else p + [last]
  }

  /** The palette is in the order in which the values first occur. */
  lemma {:induction false} DistinctInOrder(values: seq<nat>, i: nat, j: nat)
    requires i < j < |Distinct(values)|
    ensures exists k :: 0 <= k < |values| && values[k] == Distinct(values)[i] && Distinct(values)[j] !in values[..k + 1]
    decreases |values|
  {
    var less := values[..|values| - 1];
    if j < |Distinct(less)| {
      DistinctInOrder(less, i, j);
      var k :| 0 <= k < |less| && less[k] == Distinct(less)[i] && Distinct(less)[j] !in less[..k + 1];
      assert values[..k + 1] == less[..k + 1] && values[k] == less[k];
    } else {
      assert Distinct(less)[i] in less;
      var k :| 0 <= k < |less| && less[k] == Distinct(less)[i];
      assert values[k] == less[k];
      assert forall v :: v in values[..k + 1] ==> v in less by {
        assert values[..k + 1] == less[..k + 1];
      }
    }
  }

  ghost function Different(values: seq<nat>): set<nat> {
    set v | v in values
  }

  lemma {:induction false} NoRepeats(p: seq<nat>)
    requires forall i, j :: 0 <= i < j < |p| ==> p[i] != p[j]
    ensures |Different(p)| == |p|
  {
    if p != [] {
      var less, last := p[..|p| - 1], p[|p| - 1];
      NoRepeats(less);
      assert forall i :: 0 <= i < |less| ==> less[i] == p[i] != last;
      assert p == less + [last];
      assert last !in Different(less) && Different(p) == Different(less) + {last};
    }
  }

  lemma DistinctCount(values: seq<nat>)
    ensures |Different(values)| == |Distinct(values)|
  {
    NoRepeats(Distinct(values));
    assert Different(Distinct(values)) == Different(values);
  }

  function IndexOf(p: seq<nat>, v: nat): (i: nat)
    requires v in p
    ensures i < |p| && p[i] == v && v !in p[..i]
  {
    if p[0] == v then 0 else 1 + IndexOf(p[1..], v)
  }

  function Indices(values: seq<nat>, p: seq<nat>): (indices: seq<nat>)
    requires forall v :: v in values ==> v in p
    ensures |indices| == |values| && forall i :: 0 <= i < |values| ==> indices[i] < |p| && p[indices[i]] == values[i]
  {
    seq(|values|, i requires 0 <= i < |values| => IndexOf(p, values[i]))
  }

  /** The least width from `minimum` on that gives every palette entry an index. */
  function Width(minimum: nat, size: nat): (bits: nat)
    requires size <= 0x1_0000 && minimum <= 16
    ensures minimum <= bits <= 16 && size <= Pow2(bits) && (bits > minimum ==> Pow2(bits - 1) < size)
    decreases 16 - minimum
  {
    SixteenBits();
    if Pow2(minimum) < size then Width(minimum + 1, size) else minimum
  }

  /** Different values below a limit are no more than the limit. */
  lemma {:induction false} DistinctBound(p: seq<nat>, limit: nat)
    requires AllBelow(p, limit) && forall i, j :: 0 <= i < j < |p| ==> p[i] != p[j]
    ensures |p| <= limit
  {
    assert p != [] ==> p[0] < limit;
    if limit > 0 {
      if i :| 0 <= i < |p| && p[i] == limit - 1 {
        var q := p[..i] + p[i + 1..];
        assert forall k :: 0 <= k < |q| ==> q[k] == p[if k < i then k else k + 1];
        DistinctBound(q, limit - 1);
      } else {
        DistinctBound(p, limit - 1);
      }
    }
  }

  // ---------------------------------------------------------------------------------------
  // The container
  // ---------------------------------------------------------------------------------------

  predicate GoodWidths(minimum: nat, maximum: nat, global: nat) {
    1 <= minimum <= maximum < global <= 16
  }

  lemma PaletteFits(values: seq<nat>, global: nat)
    requires global <= 16 && AllBelow(values, Pow2(global))
    ensures |Distinct(values)| <= 0x1_0000 && AllBelow(Distinct(values), Pow2(global)) && Pow2(global) <= 0x1_0000
  {
    var p := Distinct(values);
    forall i | 0 <= i < |p| ensures p[i] < Pow2(global) {
      assert p[i] in values;
    }
    DistinctBound(p, Pow2(global));
    Pow2Monotone(global, 16);
    SixteenBits();
  }

  function Entries(p: seq<nat>): seq<byte> {
    if p == [] then [] else Groups(p[0]) + Entries(p[1..])
  }

  /** A palette and indices into it. */
  function Indexed(values: seq<nat>, p: seq<nat>, bits: nat): seq<byte>
    requires 1 <= bits <= 16 && forall v :: v in values ==> v in p
  {
    Groups(|p|) + (Entries(p) + Packed(Indices(values, p), bits))
  }

  /** The encoding: one value, indices into the palette, or the values themselves. */
  function Encoding(values: seq<nat>, minimum: nat, maximum: nat, global: nat): seq<byte>
    requires GoodWidths(minimum, maximum, global) && values != [] && AllBelow(values, Pow2(global))
  {
    PaletteFits(values, global);
    var p := Distinct(values);
    var bits := Width(minimum, |p|);
    if |p| == 1 then [0] + Groups(p[0])
    else if bits > maximum then [global as byte] + Packed(values, global)
    else [bits as byte] + Indexed(values, p, bits)
  }

  /** The form by the number of different values: one alone is written as such, more than `maximum` bits can
      tell apart as themselves in `global` bits, and others as indices of the least width from `minimum` on. */
  lemma FormJustWhen(values: seq<nat>, minimum: nat, maximum: nat, global: nat)
    requires GoodWidths(minimum, maximum, global) && values != [] && AllBelow(values, Pow2(global))
    ensures
      var e, n := Encoding(values, minimum, maximum, global), |Different(values)|;
      && e != [] && (e[0] == 0 <==> n == 1)
      && (n == 1 ==> e == [0] + Groups(values[0]))
      && (e[0] as nat == global <==> n > Pow2(maximum) && n > 1)
      && (e[0] as nat == global ==> e == [global as byte] + Packed(values, global))
      && (1 < n <= Pow2(maximum) ==>
            var bits := e[0] as nat;
            && minimum <= bits <= maximum && n <= Pow2(bits) && (bits > minimum ==> Pow2(bits - 1) < n)
            && e == [e[0]] + Indexed(values, Distinct(values), bits))
  {
    DistinctCount(values);
    PaletteFits(values, global);
    FormBits(minimum, maximum, |Distinct(values)|);
    FormOf(values, minimum, maximum, global);
    var e, w := Encoding(values, minimum, maximum, global), Width(minimum, |Distinct(values)|);
    if 1 < |Different(values)| <= Pow2(maximum) {
      assert e[0] as nat == w <= maximum;
      assert e == [w as byte] + Indexed(values, Distinct(values), w);
    }
  }

  lemma FormOf(values: seq<nat>, minimum: nat, maximum: nat, global: nat)
    requires GoodWidths(minimum, maximum, global) && values != [] && AllBelow(values, Pow2(global))
    ensures |Distinct(values)| <= 0x1_0000
    ensures
      var e, bits := Encoding(values, minimum, maximum, global), Width(minimum, |Distinct(values)|);
      && e == (if |Distinct(values)| == 1 then [0] + Groups(values[0])
               else if bits > maximum then [global as byte] + Packed(values, global)
               else [bits as byte] + Indexed(values, Distinct(values), bits))
      && e != [] && e[0] as nat == if |Distinct(values)| == 1 then 0 else if bits > maximum then global else bits
  {
    PaletteFits(values, global);
    assert values[0] in Distinct(values);
  }

  lemma FormBits(minimum: nat, maximum: nat, n: nat)
    requires 1 <= minimum <= maximum < 16 && n <= 0x1_0000
    ensures Width(minimum, n) > maximum <==> n > Pow2(maximum)
  {
    var bits := Width(minimum, n);
    if bits > maximum {
      Pow2Monotone(maximum, bits - 1);
    } else {
      Pow2Monotone(bits, maximum);
    }
  }

  function ReadPalette(b: seq<byte>, count: nat): Option<(seq<nat>, seq<byte>)> {
    if count == 0 then Some(([], b))
    else
      var first := ReadGroups(b, 0);
      if first.None? then None
      else
        var more := ReadPalette(first.value.rest, count - 1);
        if more.None? then None else Some(([first.value.value] + more.value.0, more.value.1))
  }

  function Lookup(p: seq<nat>, indices: seq<nat>): seq<nat>
    requires AllBelow(indices, |p|)
  {
    seq(|indices|, i requires 0 <= i < |indices| => p[indices[i]])
  }

  function ReadIndexed(b: seq<byte>, count: nat, bits: nat): Option<(seq<nat>, seq<byte>)>
    requires 1 <= bits <= 16
  {
    var size := ReadGroups(b, 0);
    if size.None? then None
    else
      var p := ReadPalette(size.value.rest, size.value.value);
      if p.None? then None
      else
        var indices := ReadPacked(p.value.1, count, bits);
        if indices.None? || !AllBelow(indices.value.0, |p.value.0|) then None
        else Some((Lookup(p.value.0, indices.value.0), indices.value.1))
  }

  /** What a client makes of it: the first byte is the width, 0 for a single value and above `maximum` for
      values that are not indices. */
  function Decode(b: seq<byte>, count: nat, maximum: nat): Option<(seq<nat>, seq<byte>)> {
    if b == [] || b[0] > 16 then None
    else if b[0] == 0 then
      var v := ReadGroups(b[1..], 0);
      if v.None? then None else Some((seq(count, _ => v.value.value), v.value.rest))
    else if b[0] as nat > maximum then ReadPacked(b[1..], count, b[0] as nat)
    else ReadIndexed(b[1..], count, b[0] as nat)
  }

  lemma {:induction false} PaletteRoundTrip(p: seq<nat>, rest: seq<byte>)
    requires AllBelow(p, 0x1_0000)
    ensures ReadPalette(Entries(p) + rest, |p|) == Some((p, rest))
  {
    if p == [] {
      assert Entries(p) + rest == rest;
    } else {
      Associative(Groups(p[0]), Entries(p[1..]), rest);
      GroupsRoundTrip(p[0], 0, Entries(p[1..]) + rest);
      PaletteRoundTrip(p[1..], rest);
      assert [p[0]] + p[1..] == p;
    }
  }

  lemma IndexedRoundTrip(values: seq<nat>, p: seq<nat>, bits: nat, rest: seq<byte>)
    requires 1 <= bits <= 16 && |p| <= Pow2(bits) && AllBelow(p, 0x1_0000) && |p| <= 0x1_0000
    requires forall v :: v in values ==> v in p
    ensures ReadIndexed(Indexed(values, p, bits) + rest, |values|, bits) == Some((values, rest))
  {
    var indices := Indices(values, p);
    var packed := Packed(indices, bits);
    Associative(Groups(|p|), Entries(p) + packed, rest);
    Associative(Entries(p), packed, rest);
    GroupsRoundTrip(|p|, 0, Entries(p) + (packed + rest));
    PaletteRoundTrip(p, packed + rest);
    PackedRoundTrip(indices, bits, rest);
    assert Lookup(p, indices) == values;
  }

  lemma SingleValue(values: seq<nat>, p: seq<nat>)
    requires |p| == 1 && forall v :: v in values ==> v in p
    ensures values == seq(|values|, _ => p[0])
  {
    forall i | 0 <= i < |values| ensures values[i] == p[0] {
      assert values[i] in p;
    }
  }

  lemma AfterWidth(width: byte, body: seq<byte>, rest: seq<byte>)
    ensures ([width] + body + rest)[0] == width && ([width] + body + rest)[1..] == body + rest
  {
  }

  /** The values come back, in all three forms, whatever follows. */
  lemma RoundTrip(values: seq<nat>, minimum: nat, maximum: nat, global: nat, rest: seq<byte>)
    requires GoodWidths(minimum, maximum, global) && values != [] && AllBelow(values, Pow2(global))
    ensures Decode(Encoding(values, minimum, maximum, global) + rest, |values|, maximum) == Some((values, rest))
  {
    PaletteFits(values, global);
    var p := Distinct(values);
    var bits := Width(minimum, |p|);
    if |p| == 1 {
      AfterWidth(0, Groups(p[0]), rest);
      GroupsRoundTrip(p[0], 0, rest);
      SingleValue(values, p);
    } else if bits > maximum {
      AfterWidth(global as byte, Packed(values, global), rest);
      PackedRoundTrip(values, global, rest);
    } else {
      AfterWidth(bits as byte, Indexed(values, p, bits), rest);
      IndexedRoundTrip(values, p, bits, rest);
    }
  }

  // ---------------------------------------------------------------------------------------
  // As it runs
  // ---------------------------------------------------------------------------------------

  /** The values that pass the range check, as indices and words hold them. */
  function Unsigned(values: seq<int>): (u: seq<nat>)
    requires forall i :: 0 <= i < |values| ==> values[i] >= 0
    ensures |u| == |values| && forall i :: 0 <= i < |values| ==> u[i] == values[i]
  {
    seq(|values|, i requires 0 <= i < |values| => values[i])
  }

  predicate InRange(values: seq<int>, global: nat) {
    forall i :: 0 <= i < |values| ==> 0 <= values[i] < Pow2(global)
  }

  /** `std::find`: the position of a value, or the end. */
  method Find(p: seq<nat>, v: nat) returns (i: nat)
    ensures i <= |p| && v !in p[..i] && (i < |p| ==> p[i] == v)
  {
    i := 0;
    while i < |p| && p[i] != v
      invariant i <= |p| && v !in p[..i]
    {
      i := i + 1;
    }
  }

  lemma DistinctStep(values: seq<nat>, n: nat)
    requires n < |values|
    ensures Distinct(values[..n + 1]) ==
            if values[n] in Distinct(values[..n]) then Distinct(values[..n]) else Distinct(values[..n]) + [values[n]]
  {
    assert values[..n + 1][..n] == values[..n];
  }

  lemma {:induction false} IndexIs(p: seq<nat>, v: nat, i: nat)
    requires i < |p| && p[i] == v && v !in p[..i]
    ensures IndexOf(p, v) == i
  {
    if i > 0 {
      assert p[0] == p[..i][0];
      assert p[1..][..i - 1] == p[..i][1..];
      IndexIs(p[1..], v, i - 1);
    }
  }

  /** Palette and indices after the first `n` values. */
  ghost predicate Built(values: seq<int>, global: nat, n: nat, p: seq<nat>, indices: seq<nat>) {
    && n == |indices| <= |values| && InRange(values[..n], global)
    && p == Distinct(Unsigned(values[..n])) && Indexes(values[..n], p, indices)
  }

  ghost predicate Indexes(values: seq<int>, p: seq<nat>, indices: seq<nat>) {
    |indices| == |values| && forall i :: 0 <= i < |values| ==> indices[i] < |p| && p[indices[i]] == values[i]
  }

  lemma OutOfRange(values: seq<int>, global: nat, n: nat)
    requires n < |values| && !(0 <= values[n] < Pow2(global))
    ensures !InRange(values, global)
  {
  }

  lemma IndexesNext(values: seq<int>, n: nat, p: seq<nat>, indices: seq<nat>, found: nat, next: seq<nat>)
    requires n < |values| && Indexes(values[..n], p, indices) && p <= next && found < |next| && next[found] == values[n]
    ensures Indexes(values[..n + 1], next, indices + [found])
  {
    assert forall i :: 0 <= i < n ==> values[..n][i] == values[..n + 1][i];
  }

  lemma DistinctNext(values: seq<int>, n: nat, p: seq<nat>)
    requires n < |values| && forall i :: 0 <= i <= n ==> values[i] >= 0
    requires p == Distinct(Unsigned(values[..n]))
    ensures Distinct(Unsigned(values[..n + 1])) == if values[n] in p then p else p + [values[n]]
  {
    var u := Unsigned(values[..n + 1]);
    assert u[..n] == Unsigned(values[..n]) && u[..n + 1] == u;
    DistinctStep(u, n);
  }

  lemma InRangeNext(values: seq<int>, global: nat, n: nat)
    requires n < |values| && InRange(values[..n], global) && 0 <= values[n] < Pow2(global)
    ensures InRange(values[..n + 1], global)
  {
    assert forall i :: 0 <= i < n ==> values[..n + 1][i] == values[..n][i];
  }

  lemma BuiltStep(values: seq<int>, global: nat, n: nat, p: seq<nat>, indices: seq<nat>, found: nat)
    requires Built(values, global, n, p, indices) && n < |values| && 0 <= values[n] < Pow2(global)
    requires found <= |p| && values[n] !in p[..found] && (found < |p| ==> p[found] == values[n])
    ensures Built(values, global, n + 1, if found == |p| then p + [values[n]] else p, indices + [found])
  {
    InRangeNext(values, global, n);
    assert forall i :: 0 <= i < n ==> values[i] == values[..n][i];
    DistinctNext(values, n, p);
    assert found == |p| ==> p[..found] == p;
    IndexesNext(values, n, p, indices, found, if found == |p| then p + [values[n]] else p);
  }

  lemma BuiltAll(values: seq<int>, global: nat, p: seq<nat>, indices: seq<nat>)
    requires Built(values, global, |values|, p, indices)
    ensures InRange(values, global) && p == Distinct(Unsigned(values)) && indices == Indices(Unsigned(values), p)
  {
    assert values[..|values|] == values;
    var u := Unsigned(values);
    forall i | 0 <= i < |values| ensures indices[i] == IndexOf(p, u[i]) {
      IndexIs(p, u[i], indices[i]);
    }
  }

  /** Looks a value up in the palette, adding it if it is new. */
  method AddValue(values: seq<int>, n: nat, p: seq<nat>, indices: seq<nat>, ghost global: nat)
    returns (next: seq<nat>, more: seq<nat>)
    requires Built(values, global, n, p, indices) && n < |values| && 0 <= values[n] < Pow2(global)
    ensures Built(values, global, n + 1, next, more)
  {
    var found := Find(p, values[n]);
    BuiltStep(values, global, n, p, indices, found);
    next := if found == |p| then p + [values[n]] else p;
    more := indices + [found];
  }

  /** The palette and the indices for values that are all in range, or a refusal. */
  method BuildPalette(values: seq<int>, global: nat) returns (ok: bool, p: seq<nat>, indices: seq<nat>)
    ensures ok <==> InRange(values, global)
    ensures ok ==> p == Distinct(Unsigned(values)) && indices == Indices(Unsigned(values), p)
  {
    p, indices := [], [];
    var n := 0;
    while n < |values|
      invariant Built(values, global, n, p, indices)
    {
      if values[n] < 0 || values[n] >= Pow2(global) {
        OutOfRange(values, global, n);
        return false, p, indices;
      }
      p, indices := AddValue(values, n, p, indices, global);
      n := n + 1;
    }
    BuiltAll(values, global, p, indices);
    return true, p, indices;
  }

  /** `encode_paletted_container`, which throws for widths out of order and for values out of range. */
  method EncodePalettedContainer(values: seq<int>, minimum: nat, maximum: nat, global: nat)
    returns (r: Option<seq<byte>>)
    ensures r.Some? <==> values != [] && GoodWidths(minimum, maximum, global) && InRange(values, global)
    ensures r.Some? ==> r.value == Encoding(Unsigned(values), minimum, maximum, global)
  {
    if values == [] || minimum == 0 || minimum > maximum || maximum >= global || global > 16 {
      return None;
    }
    var ok, p, indices := BuildPalette(values, global);
    if !ok {
      return None;
    }
    var output := WriteContainer(Unsigned(values), p, indices, minimum, maximum, global);
    return Some(output);
  }

  method WriteContainer(values: seq<nat>, p: seq<nat>, indices: seq<nat>, minimum: nat, maximum: nat, global: nat)
    returns (output: seq<byte>)
    requires GoodWidths(minimum, maximum, global) && values != [] && AllBelow(values, Pow2(global))
    requires p == Distinct(values) && indices == Indices(values, p)
    ensures output == Encoding(values, minimum, maximum, global)
  {
    PaletteFits(values, global);
    if |p| == 1 {
      output := WriteValue([0], p[0]);
      return;
    }
    var bits := FindWidth(minimum, |p|);
    if bits > maximum {
      output := WritePacked([global as byte], values, global);
      return;
    }
    output := WriteValue([bits as byte], |p|);
    output := WriteEntries(output, p);
    output := WritePacked(output, indices, bits);
    FourParts([bits as byte], Groups(|p|), Entries(p), Packed(indices, bits));
  }

  method WriteValue(output: seq<byte>, v: nat) returns (r: seq<byte>)
    requires v <= 0x1_0000
    ensures r == output + Groups(v)
  {
    RangeValues();
    r := WriteVarint(output, v);
  }

  method WriteEntries(output: seq<byte>, p: seq<nat>) returns (r: seq<byte>)
    requires AllBelow(p, 0x1_0000)
    ensures r == output + Entries(p)
  {
    r := output;
    var i := 0;
    assert p[0..] == p;
    while i < |p|
      invariant i <= |p| && r + Entries(p[i..]) == output + Entries(p)
    {
      ghost var was := r;
      r := WriteValue(r, p[i]);
      assert p[i..][1..] == p[i + 1..];
      Associative(was, Groups(p[i]), Entries(p[i + 1..]));
      i := i + 1;
    }
  }

  /** The loop that widens until the palette has an index for each entry. */
  method FindWidth(minimum: nat, size: nat) returns (bits: nat)
    requires size <= 0x1_0000 && minimum <= 16
    ensures bits == Width(minimum, size)
  {
    SixteenBits();
    bits := minimum;
    while Pow2(bits) < size
      invariant bits <= 16 && Width(bits, size) == Width(minimum, size)
      decreases 16 - bits
    {
      assert bits == 16 ==> Pow2(bits) == 0x1_0000;
      bits := bits + 1;
    }
  }
}
