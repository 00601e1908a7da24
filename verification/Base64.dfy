/** The resumable base64 decoder of base64.c and its relation to section 4 of RFC 4648. */
module Base64 {
  import opened Words
  import opened HbootLib

  // ---- One character

  /** The 80-entry table of base64_decode_value, from '+' on: -1 marks what is not in the alphabet
      and -2 the padding. */
  function Decoding(i: int): int
    requires 0 <= i < 80
  {
    if i == 0 then 62
    else if i == 4 then 63
    else if 5 <= i <= 14 then i + 47
    else if i == 18 then -2
    else if 22 <= i <= 47 then i - 22
    else if 54 <= i then i - 28
    else -1
  }

  /** A value stored in a C `char`, which the target's compiler may take as signed or unsigned. */
  function AsChar(signed: bool, x: int): int {
    if signed then (x + 128) % 256 - 128 else x % 256
  }

  function DecodeValue(signed: bool, c: u8): int {
    var v := AsChar(signed, AsChar(signed, c) - 43);
    if v < 0 || v >= 80 then -1 else AsChar(signed, Decoding(v))
  }

  type Sextet = x: int | 0 <= x < 64

  /** What the inner loop of base64_decode_block does with a character: `fragment` is a `char`, a
      negative one is skipped, and of the others only the low six bits are ever used. */
  function Accept(signed: bool, c: u8): seq<Sextet> {
    var fragment := AsChar(signed, DecodeValue(signed, c));
    if fragment < 0 then [] else [fragment % 64]
  }

  /** The base64 alphabet of RFC 4648. */
  function Letter(x: Sextet): (c: u8) {
    if x < 26 then x + 65 else if x < 52 then x + 71 else if x < 62 then x - 4 else if x == 62 then 43 else 47
  }

  predicate InAlphabet(c: u8) {
    65 <= c <= 90 || 97 <= c <= 122 || 48 <= c <= 57 || c == 43 || c == 47
  }

  /** Subtracting '+' from a `char` leaves the table range exactly for '+' to 'z'. */
  lemma TableIndex(signed: bool, c: u8)
    ensures var v := AsChar(signed, AsChar(signed, c) - 43);
            if 43 <= c <= 122 then v == c - 43 else v < 0 || v >= 80
  {
  }

  /** A table value survives its trips through `char`, but for the sign. */
  lemma TableValue(signed: bool, x: int)
    requires -2 <= x < 64
    ensures AsChar(signed, AsChar(signed, x)) == if signed || x >= 0 then x else x + 256
  {
  }

  lemma AcceptIs(signed: bool, c: u8)
    ensures var x := if 43 <= c <= 122 then Decoding(c - 43) else -1;
            Accept(signed, c) == if x >= 0 then [x] else if signed then [] else [x + 64]
  {
    hide AsChar;
    TableIndex(signed, c);
    TableValue(signed, if 43 <= c <= 122 then Decoding(c - 43) else -1);
    TableValue(signed, -1);
    MinusOne(signed);
  }

  lemma MinusOne(signed: bool)
    ensures AsChar(signed, -1) == if signed then -1 else 255
  {
  }

  /** On the alphabet both kinds of `char` decode alike, and a signed one skips everything else. */
  lemma AcceptLetter(signed: bool, c: u8)
    ensures InAlphabet(c) ==> exists x: Sextet :: Letter(x) == c && Accept(signed, c) == [x]
    ensures signed && !InAlphabet(c) ==> Accept(signed, c) == []
    ensures !signed ==> |Accept(signed, c)| == 1
  {
    hide AsChar, Accept;
    AcceptIs(signed, c);
    if InAlphabet(c) {
      var x: Sextet :=
        if c == 43 then 62 else if c == 47 then 63 else if c <= 57 then c + 4 else if c <= 90 then c - 65 else c - 71;
      assert Letter(x) == c && Accept(signed, c) == [x];
    }
  }

  lemma LetterAccepted(signed: bool, x: Sextet)
    ensures InAlphabet(Letter(x)) && Accept(signed, Letter(x)) == [x]
  {
    hide AsChar, Accept;
    AcceptIs(signed, Letter(x));
  }

  // ---- The decoder as a state machine

  /** base64_decodestate: which of the four sextets of a group comes next, and the byte begun. */
  datatype DecodeState = DecodeState(step: nat, plainchar: u8)

  const INIT := DecodeState(0, 0)

  /** The bits of the begun byte that the next sextet still has to fill are zero. */
  predicate ValidState(st: DecodeState) {
    && st.step < 4
    && (st.step == 1 ==> st.plainchar % 4 == 0)
    && (st.step == 2 ==> st.plainchar % 16 == 0)
    && (st.step == 3 ==> st.plainchar % 64 == 0)
  }

  /** Between groups the begun byte means nothing. */
  predicate Equivalent(a: DecodeState, b: DecodeState) {
    a.step == b.step && (a.step != 0 ==> a.plainchar == b.plainchar)
  }

  datatype Decoded = Decoded(st: DecodeState, out: seq<u8>)

  function Feed(st: DecodeState, x: Sextet): (d: Decoded)
    requires ValidState(st)
    ensures ValidState(d.st)
  {
    if st.step == 0 then Decoded(DecodeState(1, x * 4), [])
    else if st.step == 1 then Decoded(DecodeState(2, x % 16 * 16), [st.plainchar + x / 16])
    else if st.step == 2 then Decoded(DecodeState(3, x % 4 * 64), [st.plainchar + x / 4])
    else Decoded(DecodeState(0, 0), [st.plainchar + x])
  }

  function Fold(st: DecodeState, xs: seq<Sextet>): (d: Decoded)
    requires ValidState(st)
    ensures ValidState(d.st)
    decreases |xs|
  {
    if xs == [] then Decoded(st, [])
    else
      var first := Feed(st, xs[0]);
      var rest := Fold(first.st, xs[1..]);
      Decoded(rest.st, first.out + rest.out)
  }

  lemma {:induction false} FoldAppend(st: DecodeState, xs: seq<Sextet>, ys: seq<Sextet>)
    requires ValidState(st)
    ensures var first := Fold(st, xs);
            var rest := Fold(first.st, ys);
            Fold(st, xs + ys) == Decoded(rest.st, first.out + rest.out)
    decreases |xs|
  {
    hide Feed, ValidState;
    if xs == [] {
      assert xs + ys == ys;
    } else {
      var d := Feed(st, xs[0]);
      FoldAppend(d.st, xs[1..], ys);
      assert (xs + ys)[1..] == xs[1..] + ys;
      var first := Fold(d.st, xs[1..]);
      assert d.out + (first.out + Fold(first.st, ys).out) == d.out + first.out + Fold(first.st, ys).out;
    }
  }

  /** Equivalent states decode alike. */
  lemma {:induction false} FoldEquivalent(a: DecodeState, b: DecodeState, xs: seq<Sextet>)
    requires ValidState(a) && ValidState(b) && Equivalent(a, b)
    ensures Fold(a, xs).out == Fold(b, xs).out && Equivalent(Fold(a, xs).st, Fold(b, xs).st)
  {
    if xs != [] {
      assert Feed(a, xs[0]) == Feed(b, xs[0]);
    }
  }

  /** n accepted characters complete floor(3n/4) bytes, counted from the start of a group. */
  lemma {:induction false} FoldLength(st: DecodeState, xs: seq<Sextet>)
    requires ValidState(st)
    ensures |Fold(st, xs).out| == 3 * (st.step + |xs|) / 4 - 3 * st.step / 4
    ensures Fold(st, xs).st.step == (st.step + |xs|) % 4
    decreases |xs|
  {
    if xs != [] {
      var d := Feed(st, xs[0]);
      FoldLength(d.st, xs[1..]);
      OneCounted(st.step, |xs|);
    }
  }

  lemma OneCounted(step: int, n: int)
    requires 0 <= step < 4 && n > 0
    ensures var next := (step + 1) % 4;
            && (step + n) % 4 == (next + n - 1) % 4
            && 3 * (step + n) / 4 - 3 * step / 4 ==
               (if step == 0 then 0 else 1) + 3 * (next + n - 1) / 4 - 3 * next / 4
  {
    if step == 3 {
      assert 3 * (step + n) == 3 * (n - 1) + 12;
    }
  }

  // ---- Text

  /** The sextets of the accepted characters, in order. */
  function Sextets(signed: bool, code: seq<u8>): seq<Sextet> {
    if code == [] then [] else Accept(signed, code[0]) + Sextets(signed, code[1..])
  }

  lemma {:induction false} SextetsAppend(signed: bool, a: seq<u8>, b: seq<u8>)
    ensures Sextets(signed, a + b) == Sextets(signed, a) + Sextets(signed, b)
  {
    hide Accept;
    if a == [] {
      assert a + b == b;
    } else {
      assert (a + b)[1..] == a[1..] + b;
      SextetsAppend(signed, a[1..], b);
    }
  }

  function DecodeText(signed: bool, st: DecodeState, code: seq<u8>): (d: Decoded)
    requires ValidState(st)
    ensures ValidState(d.st)
  {
    Fold(st, Sextets(signed, code))
  }

  function Concat(blocks: seq<seq<u8>>): seq<u8> {
    if blocks == [] then [] else blocks[0] + Concat(blocks[1..])
  }

  /** The blocks one after the other, each from a state equivalent to the one the last one left. */
  ghost predicate DecodedInBlocks(signed: bool, st: DecodeState, blocks: seq<seq<u8>>, out: seq<u8>, end: DecodeState)
    requires ValidState(st)
    decreases |blocks|
  {
    if blocks == [] then out == [] && Equivalent(st, end)
    else
      var d := DecodeText(signed, st, blocks[0]);
      exists next, rest :: ValidState(next) && Equivalent(next, d.st) && out == d.out + rest &&
        DecodedInBlocks(signed, next, blocks[1..], rest, end)
  }

  /** Resumability: however the text is cut into blocks, carrying the state from one to the next gives
      the output and, up to equivalence, the state of a single run over the whole text. */
  lemma {:induction false} Resumable(signed: bool, st: DecodeState, blocks: seq<seq<u8>>, out: seq<u8>, end: DecodeState)
    requires ValidState(st) && DecodedInBlocks(signed, st, blocks, out, end)
    ensures var whole := DecodeText(signed, st, Concat(blocks)); out == whole.out && Equivalent(whole.st, end)
    decreases |blocks|
  {
    hide Sextets, ValidState;
    if blocks == [] {
      assert Sextets(signed, []) == [] by { NoSextets(signed); }
    } else {
      var d := DecodeText(signed, st, blocks[0]);
      var next, rest :| ValidState(next) && Equivalent(next, d.st) && out == d.out + rest &&
        DecodedInBlocks(signed, next, blocks[1..], rest, end);
      Resumable(signed, next, blocks[1..], rest, end);
      var tail := Sextets(signed, Concat(blocks[1..]));
      FoldEquivalent(next, d.st, tail);
      SextetsAppend(signed, blocks[0], Concat(blocks[1..]));
      FoldAppend(st, Sextets(signed, blocks[0]), tail);
    }
  }

  lemma NoSextets(signed: bool)
    ensures Sextets(signed, []) == []
  {
  }

  // ---- The decoder itself

  /** base64_decode_block on plain[at..]. The source jumps into its loop at the saved step; here the
      step is a variable. `|=` on a byte whose missing bits are zero is an addition. */
  method DecodeBlock(signed: bool, code: seq<u8>, plain: array<u8>, at: nat, st: DecodeState)
      returns (count: nat, next: DecodeState)
    requires ValidState(st) && at + |DecodeText(signed, st, code).out| < plain.Length
    modifies plain
    ensures count == |DecodeText(signed, st, code).out| && ValidState(next)
    ensures plain[at..at + count] == DecodeText(signed, st, code).out
    ensures Equivalent(next, DecodeText(signed, st, code).st)
    ensures forall k :: 0 <= k < plain.Length && (k < at || at + count < k) ==> plain[k] == old(plain[k])
  {
    hide Accept, Sextets, Fold;
    var p, step, i := at, st.step, 0;
    plain[p] := st.plainchar;
    FoldNothing(signed, st, code);
    while i < |code|
      invariant 0 <= i <= |code|
      invariant at <= p <= at + |DecodeText(signed, st, code).out|
      invariant Begun(plain, at, p, step, DecodeText(signed, st, code[..i]))
      invariant forall k :: 0 <= k < plain.Length && (k < at || p < k) ==> plain[k] == old(plain[k])
    {
      OneMore(signed, st, code, i);
      var fragment := AsChar(signed, DecodeValue(signed, code[i]));
      if fragment >= 0 {
        FragmentIs(signed, code[i]);
        p := StoreSextet(plain, at, p, step, fragment % 64, DecodeText(signed, st, code[..i]));
        step := (step + 1) % 4;
      } else {
        FragmentIs(signed, code[i]);
      }
      i := i + 1;
    }
    assert code[..|code|] == code;
    count, next := p - at, DecodeState(step, plain[p]);
  }

  /** The output so far, and the byte that has been begun. */
  predicate Begun(plain: array<u8>, at: nat, p: nat, step: nat, d: Decoded)
    reads plain
  {
    && ValidState(d.st) && at <= p < plain.Length && step == d.st.step
    && plain[at..p] == d.out && (step != 0 ==> plain[p] == d.st.plainchar)
  }

  /** The four cases of the loop body. */
  method StoreSextet(plain: array<u8>, at: nat, p: nat, step: nat, x: Sextet, ghost d: Decoded) returns (next: nat)
    requires Begun(plain, at, p, step, d) && p + |Feed(d.st, x).out| < plain.Length
    modifies plain
    ensures next == p + |Feed(d.st, x).out|
    ensures Begun(plain, at, next, (step + 1) % 4, Decoded(Feed(d.st, x).st, d.out + Feed(d.st, x).out))
    ensures forall k :: 0 <= k < plain.Length && (k < p || next < k) ==> plain[k] == old(plain[k])
  {
    next := p;
    if step == 0 {
      plain[p] := x * 4;
    } else if step == 1 {
      plain[p] := plain[p] + x / 16;
      next := p + 1;
      plain[next] := x % 16 * 16;
    } else if step == 2 {
      plain[p] := plain[p] + x / 4;
      next := p + 1;
      plain[next] := x % 4 * 64;
    } else {
      plain[p] := plain[p] + x;
      next := p + 1;
    }
    assert plain[at..p] == d.out;
  }

  lemma FragmentIs(signed: bool, c: u8)
    ensures var fragment := AsChar(signed, DecodeValue(signed, c));
            Accept(signed, c) == if fragment < 0 then [] else [fragment % 64]
  {
  }

  lemma FoldNothing(signed: bool, st: DecodeState, code: seq<u8>)
    requires ValidState(st)
    ensures DecodeText(signed, st, code[..0]) == Decoded(st, [])
  {
  }

  /** One more character of the text. */
  lemma OneMore(signed: bool, st: DecodeState, code: seq<u8>, i: nat)
    requires ValidState(st) && i < |code|
    ensures var d, e := DecodeText(signed, st, code[..i]), DecodeText(signed, st, code[..i + 1]);
            var x := Accept(signed, code[i]);
            && (x == [] ==> e == d)
            && (x != [] ==> |x| == 1 && e == Decoded(Feed(d.st, x[0]).st, d.out + Feed(d.st, x[0]).out))
            && |e.out| <= |DecodeText(signed, st, code).out|
  {
    hide Accept, Feed;
    assert code[..i + 1] == code[..i] + [code[i]];
    assert code == code[..i + 1] + code[i + 1..];
    SextetsAppend(signed, code[..i], [code[i]]);
    SextetsAppend(signed, code[..i + 1], code[i + 1..]);
    SextetsOne(signed, code[i]);
    FoldAppend(st, Sextets(signed, code[..i]), Accept(signed, code[i]));
    FoldAppend(st, Sextets(signed, code[..i + 1]), Sextets(signed, code[i + 1..]));
    FoldOne(DecodeText(signed, st, code[..i]).st, Accept(signed, code[i]));
  }

  lemma SextetsOne(signed: bool, c: u8)
    ensures Sextets(signed, [c]) == Accept(signed, c) && |Accept(signed, c)| <= 1
  {
    assert [c][1..] == [];
  }

  lemma FoldOne(st: DecodeState, x: seq<Sextet>)
    requires ValidState(st) && |x| <= 1
    ensures Fold(st, x) == if x == [] then Decoded(st, []) else Feed(st, x[0])
  {
    if x != [] {
      assert x[1..] == [];
    }
  }

  /** The text up to its first NUL. */
  function Text(input: seq<u8>): seq<u8> {
    if input == [] || input[0] == 0 then [] else [input[0]] + Text(input[1..])
  }

  lemma {:induction false} TextIs(input: seq<u8>, n: nat)
    requires n < |input| && input[n] == 0 && 0 !in input[..n]
    ensures Text(input) == input[..n]
  {
    if n > 0 {
      assert input[0] == input[..n][0];
      assert input[1..][..n - 1] == input[..n][1..];
      TextIs(input[1..], n - 1);
    }
  }

  /** base64_decode: a NUL-terminated text into a buffer with room for the closing zero. */
  method Decode(signed: bool, input: seq<u8>, output: array<u8>) returns (count: nat)
    requires 0 in input && |DecodeText(signed, INIT, Text(input)).out| < output.Length
    modifies output
    ensures count < output.Length && output[..count] == DecodeText(signed, INIT, Text(input)).out
    ensures count == 3 * |Sextets(signed, Text(input))| / 4
    ensures output[count] == 0 && output[count + 1..] == old(output[..])[count + 1..]
  {
    hide Fold, Sextets;
    var n := StrLen(input);
    TextIs(input, n);
    FoldLength(INIT, Sextets(signed, input[..n]));
    var st;
    count, st := DecodeBlock(signed, input[..n], output, 0, INIT);
    output[count] := 0;
    assert output[..count] == output[0..count];
  }

  // ---- The encoder

  /** The sextets of RFC 4648: three bytes give four, a rest of one or two gives two or three. */
  function EncodeSextets(data: seq<u8>): seq<Sextet> {
    if data == [] then []
    else if |data| == 1 then [data[0] / 4, data[0] % 4 * 16]
    else if |data| == 2 then [data[0] / 4, data[0] % 4 * 16 + data[1] / 16, data[1] % 16 * 4]
    else
      [data[0] / 4, data[0] % 4 * 16 + data[1] / 16, data[1] % 16 * 4 + data[2] / 64, data[2] % 64]
      + EncodeSextets(data[3..])
  }

  function Letters(xs: seq<Sextet>): seq<u8> {
    if xs == [] then [] else [Letter(xs[0])] + Letters(xs[1..])
  }

  /** binascii.b2a_base64 without its final newline. */
  function Encode(data: seq<u8>): seq<u8> {
    Letters(EncodeSextets(data)) + (if |data| % 3 == 1 then [61, 61] else if |data| % 3 == 2 then [61] else [])
  }

  /** Decoding the sextets of an encoding gives the data back. */
  lemma {:induction false} FoldEncoded(data: seq<u8>)
    ensures Fold(INIT, EncodeSextets(data)).out == data
    decreases |data|
  {
    hide Fold, Feed;
    var xs := EncodeSextets(data);
    if |data| < 3 {
      FoldRemainder(data);
    } else {
      var quad, rest := xs[..4], EncodeSextets(data[3..]);
      FoldQuad(quad);
      Regroup(data[0], data[1], data[2]);
      FoldAppend(INIT, quad, rest);
      assert xs == quad + rest;
      FoldEncoded(data[3..]);
      assert data == data[..3] + data[3..];
    }
  }

  lemma {:induction false} FoldRemainder(data: seq<u8>)
    requires |data| < 3
    ensures Fold(INIT, EncodeSextets(data)).out == data
  {
    hide Fold, Feed;
    if |data| == 0 {
      FoldOne(INIT, []);
    } else if |data| == 1 {
      RemainderOne(data[0]);
    } else {
      RemainderTwo(data[0], data[1]);
      assert data == [data[0], data[1]];
    }
  }

  lemma RemainderOne(x: u8)
    ensures Fold(INIT, [x / 4, x % 4 * 16]).out == [x]
  {
    hide Fold, Feed;
    FoldPair([x / 4, x % 4 * 16]);
    RegroupRest(x, 0);
  }

  lemma RemainderTwo(x: u8, y: u8)
    ensures Fold(INIT, [x / 4, x % 4 * 16 + y / 16, y % 16 * 4]).out == [x, y]
  {
    hide Fold, Feed;
    FoldTriple([x / 4, x % 4 * 16 + y / 16, y % 16 * 4]);
    RegroupRest(x, y);
  }

  lemma RegroupRest(x: int, y: int)
    requires 0 <= x < 0x100 && 0 <= y < 0x100
    ensures x / 4 * 4 + (x % 4 * 16) / 16 == x
    ensures x / 4 * 4 + (x % 4 * 16 + y / 16) / 16 == x
    ensures (x % 4 * 16 + y / 16) % 16 * 16 + (y % 16 * 4) / 4 == y
  {
  }

  lemma FoldPair(xs: seq<Sextet>)
    requires |xs| == 2
    ensures var a: int, b: int := xs[0], xs[1];
            Fold(INIT, xs) == Decoded(DecodeState(2, b % 16 * 16), [a * 4 + b / 16])
  {
    FoldTwo(INIT, xs);
  }

  lemma FoldTriple(xs: seq<Sextet>)
    requires |xs| == 3
    ensures var a: int, b: int, c: int := xs[0], xs[1], xs[2];
            Fold(INIT, xs).out == [a * 4 + b / 16, b % 16 * 16 + c / 4]
  {
    hide Fold;
    FoldPair(xs[..2]);
    FoldAppend(INIT, xs[..2], xs[2..]);
    FoldOne(Fold(INIT, xs[..2]).st, xs[2..]);
    assert xs[..2] + xs[2..] == xs;
  }

  lemma Regroup(x: u8, y: u8, z: u8)
    ensures x / 4 * 4 + (x % 4 * 16 + y / 16) / 16 == x
    ensures (x % 4 * 16 + y / 16) % 16 * 16 + (y % 16 * 4 + z / 64) / 4 == y
    ensures (y % 16 * 4 + z / 64) % 4 * 64 + z % 64 == z
  {
  }

  lemma FoldTwo(st: DecodeState, xs: seq<Sextet>)
    requires ValidState(st) && |xs| == 2
    ensures var first := Feed(st, xs[0]);
            var second := Feed(first.st, xs[1]);
            Fold(st, xs) == Decoded(second.st, first.out + second.out)
  {
    assert xs[1..] == [xs[1]];
    FoldOne(Feed(st, xs[0]).st, [xs[1]]);
  }

  lemma FoldQuad(quad: seq<Sextet>)
    requires |quad| == 4
    ensures var a: int, b: int, c: int, d: int := quad[0], quad[1], quad[2], quad[3];
      Fold(INIT, quad) == Decoded(INIT, [a * 4 + b / 16, b % 16 * 16 + c / 4, c % 4 * 64 + d])
  {
    hide Fold;
    FoldPair(quad[..2]);
    FoldTwo(Fold(INIT, quad[..2]).st, quad[2..]);
    FoldAppend(INIT, quad[..2], quad[2..]);
    assert quad[..2] + quad[2..] == quad;
  }

  lemma {:induction false} SextetsOfLetters(signed: bool, xs: seq<Sextet>)
    ensures Sextets(signed, Letters(xs)) == xs
  {
    hide Accept, Letter;
    if xs != [] {
      LetterAccepted(signed, xs[0]);
      SextetsOfLetters(signed, xs[1..]);
      assert Letters(xs)[1..] == Letters(xs[1..]);
    }
  }

  /** Whatever follows an encoding, and whatever `char` is, the output begins with the data. */
  lemma DecodeEncodedPrefix(signed: bool, data: seq<u8>, tail: seq<u8>)
    ensures data <= DecodeText(signed, INIT, Encode(data) + tail).out
  {
    hide Fold, Sextets, EncodeSextets;
    var xs := EncodeSextets(data);
    var rest := Encode(data)[|Letters(xs)|..] + tail;
    assert Encode(data) + tail == Letters(xs) + rest;
    SextetsAppend(signed, Letters(xs), rest);
    SextetsOfLetters(signed, xs);
    FoldAppend(INIT, xs, Sextets(signed, rest));
    FoldEncoded(data);
  }

  /** The characters of the alphabet, in order. */
  function Significant(text: seq<u8>): seq<u8> {
    if text == [] then []
    else if InAlphabet(text[0]) then [text[0]] + Significant(text[1..])
    else Significant(text[1..])
  }

  /** With a signed `char`, characters outside the alphabet make no difference anywhere. */
  lemma {:induction false} OnlySignificant(text: seq<u8>)
    ensures Sextets(true, text) == Sextets(true, Significant(text))
  {
    hide Accept, InAlphabet;
    if text != [] {
      AcceptLetter(true, text[0]);
      OnlySignificant(text[1..]);
      if InAlphabet(text[0]) {
        assert Significant(text)[1..] == Significant(text[1..]);
      }
    }
  }

  /** With a signed `char` the decoder inverts the encoding exactly, with arbitrary characters from
      outside the alphabet (padding among them) anywhere in the text. */
  lemma DecodeInterleaved(data: seq<u8>, text: seq<u8>)
    requires Significant(text) == Significant(Encode(data))
    ensures DecodeText(true, INIT, text).out == data
  {
    hide Fold, Sextets, EncodeSextets, Significant;
    var xs := EncodeSextets(data);
    var padding: seq<u8> := if |data| % 3 == 1 then [61, 61] else if |data| % 3 == 2 then [61] else [];
    assert Encode(data) == Letters(xs) + padding;
    assert xs + [] == xs;
    OnlySignificant(text);
    OnlySignificant(Encode(data));
    SextetsAppend(true, Letters(xs), padding);
    SextetsOfLetters(true, xs);
    PaddingSkipped(padding);
    FoldEncoded(data);
  }

  lemma PaddingSkipped(padding: seq<u8>)
    requires padding == [] || padding == [61] || padding == [61, 61]
    ensures Sextets(true, padding) == []
  {
    hide Accept;
    AcceptLetter(true, 61);
    if padding == [61, 61] {
      assert padding[1..] == [61] && [61 as u8][1..] == [];
    } else if padding == [61] {
      assert padding[1..] == [];
    }
  }

  /** The alphabet, by its characters. */
  lemma AlphabetOf(x: Sextet)
    ensures Letter(x) ==
            if x < 26 then 'A' as int + x
            else if x < 52 then 'a' as int + x - 26
            else if x < 62 then '0' as int + x - 52
            else if x == 62 then '+' as int
            else '/' as int
  {
  }

  /** The test vectors "f", "fo" and "foo" of section 10 of RFC 4648: Zg==, Zm8= and Zm9v. */
  lemma TestVectors()
    ensures Encode([102]) == [90, 103, 61, 61]
    ensures Encode([102, 111]) == [90, 109, 56, 61]
    ensures Encode([102, 111, 111]) == [90, 109, 57, 118]
  {
    var f: seq<u8>, fo: seq<u8>, foo: seq<u8> := [102], [102, 111], [102, 111, 111];
    assert EncodeSextets(f) == [25, 32] && EncodeSextets(fo) == [25, 38, 60];
    assert foo[3..] == [];
    assert EncodeSextets(foo) == [25, 38, 61, 47];
    hide Letters, EncodeSextets;
    FourLetters(25, 32, 0, 0);
    FourLetters(25, 38, 60, 0);
    FourLetters(25, 38, 61, 47);
    assert Encode(f) == [90, 103] + [61, 61];
    assert Encode(fo) == [90, 109, 56] + [61];
    assert Encode(foo) == [90, 109, 57, 118] + [];
  }

  lemma FourLetters(a: Sextet, b: Sextet, c: Sextet, d: Sextet)
    ensures Letters([a, b]) == [Letter(a), Letter(b)] && Letters([a, b, c]) == [Letter(a), Letter(b), Letter(c)]
    ensures Letters([a, b, c, d]) == [Letter(a), Letter(b), Letter(c), Letter(d)]
  {
    assert [a, b, c, d][1..] == [b, c, d] && [b, c, d][1..] == [c, d] && [c, d][1..] == [d] && [d][1..] == [];
    assert [a, b, c][1..] == [b, c] && [b, c][1..] == [c] && [c][1..] == [] && [a, b][1..] == [b] && [b][1..] == [];
    assert Letters([d]) == [Letter(d)] && Letters([c]) == [Letter(c)] && Letters([b]) == [Letter(b)];
    assert Letters([c, d]) == [Letter(c), Letter(d)] && Letters([b, c]) == [Letter(b), Letter(c)];
    assert Letters([b, c, d]) == [Letter(b), Letter(c), Letter(d)];
  }
}
