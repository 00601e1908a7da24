/** GDB's remote packets as gdbproxy.py writes and reads them. */
module Gdb {
  import opened Words

  const DOLLAR: u8 := 0x24
  const HASH: u8 := 0x23
  const BRACE: u8 := 0x7d
  const SEMICOLON: u8 := 0x3b

  /** `c ^ 0x20` */
  function Flip(c: u8): u8 {
    if c / 0x20 % 2 == 1 then c - 0x20 else c + 0x20
  }

  predicate Special(c: u8) {
    c == DOLLAR || c == HASH || c == BRACE
  }

  predicate Separator(c: u8) {
    c == 0x2c || c == 0x3a || c == SEMICOLON
  }

  function Sum(data: seq<u8>): nat {
    if data == [] then 0 else data[0] + Sum(data[1..])
  }

  // ---- Writing

  function Escape(word: seq<u8>): seq<u8> {
    if word == [] then []
    else (if Special(word[0]) then [BRACE, Flip(word[0])] else [word[0]]) + Escape(word[1..])
  }

  /** The escaped words, joined by semicolons. */
  function Payload(words: seq<seq<u8>>): seq<u8> {
    if words == [] then []
    else if |words| == 1 then Escape(words[0])
    else Escape(words[0]) + [SEMICOLON] + Payload(words[1..])
  }

  /** '{:02x}' of one digit. */
  function HexDigit(d: int): u8
    requires 0 <= d < 16
  {
    if d < 10 then 48 + d else 87 + d
  }

  function Checksum(data: seq<u8>): seq<u8> {
    [HexDigit(Sum(data) % 0x100 / 16), HexDigit(Sum(data) % 16)]
  }

  function Packet(words: seq<seq<u8>>): seq<u8> {
    [DOLLAR] + Payload(words) + [HASH] + Checksum(Payload(words))
  }

  /** GDBServer.pack: a list of byte lists, built word by word and byte by byte, then joined. */
  method Pack(words: seq<seq<u8>>) returns (packet: seq<u8>)
    ensures packet == Packet(words)
  {
    var packedList: seq<seq<u8>> := [];
    for i := 0 to |words|
      invariant packedList == EscapeAll(words[..i])
    {
      var packed: seq<u8> := [];
      for j := 0 to |words[i]|
        invariant packed == Escape(words[i][..j])
      {
        EscapeAppend(words[i][..j], words[i][j]);
        assert words[i][..j + 1] == words[i][..j] + [words[i][j]];
        var c := words[i][j];
        if Special(c) {
          packed := packed + [BRACE];
          c := Flip(c);
        }
        packed := packed + [c];
      }
      assert words[i][..|words[i]|] == words[i];
      assert words[..i + 1] == words[..i] + [words[i]];
      EscapeAllAppend(words[..i], words[i]);
      packedList := packedList + [packed];
    }
    assert words[..|words|] == words;
    JoinEscaped(words);
    var data := JoinWords(packedList);
    packet := [DOLLAR] + data + [HASH] + Checksum(data);
  }

  function EscapeAll(words: seq<seq<u8>>): seq<seq<u8>> {
    if words == [] then [] else [Escape(words[0])] + EscapeAll(words[1..])
  }

  /** b';'.join(words) */
  function JoinWords(words: seq<seq<u8>>): seq<u8> {
    if words == [] then []
    else if |words| == 1 then words[0]
    else words[0] + [SEMICOLON] + JoinWords(words[1..])
  }

  lemma {:induction false} EscapeAppend(word: seq<u8>, c: u8)
    ensures Escape(word + [c]) == Escape(word) + if Special(c) then [BRACE, Flip(c)] else [c]
  {
    if word == [] {
      assert word + [c] == [c] && [c][1..] == [];
    } else {
      hide Special, Flip;
      EscapeAppend(word[1..], c);
      assert (word + [c])[1..] == word[1..] + [c];
      var head: seq<u8> := if Special(word[0]) then [BRACE, Flip(word[0])] else [word[0]];
      assert Escape(word) == head + Escape(word[1..]);
      assert Escape(word + [c]) == head + Escape(word[1..] + [c]);
    }
  }

  lemma {:induction false} EscapeAllAppend(words: seq<seq<u8>>, word: seq<u8>)
    ensures EscapeAll(words + [word]) == EscapeAll(words) + [Escape(word)]
  {
    if words == [] {
      assert words + [word] == [word] && [word][1..] == [];
    } else {
      EscapeAllAppend(words[1..], word);
      assert (words + [word])[1..] == words[1..] + [word];
    }
  }

  lemma {:induction false} JoinEscaped(words: seq<seq<u8>>)
    ensures JoinWords(EscapeAll(words)) == Payload(words) && |EscapeAll(words)| == |words|
  {
    if words != [] {
      JoinEscaped(words[1..]);
      assert EscapeAll(words)[1..] == EscapeAll(words[1..]);
    }
  }

  // ---- Reading

  /** What unpack makes of a packet: its words, None for a bad checksum, or a ValueError from int()
      for two characters between '0' and 'f' that are not hexadecimal digits. */
  datatype Unpacked = Words(words: seq<seq<u8>>) | Corrupt | ValueError

  function Lower(c: u8): u8 {
    if 65 <= c <= 90 then c + 32 else c
  }

  function HexValue(c: u8): int {
    if 48 <= c <= 57 then c - 48 else if 97 <= c <= 102 then c - 87 else -1
  }

  /** The words of a payload. `escaping` says whether the comparison with '}' can succeed: as written
      it compares an int with a bytes object and never does. */
  function WordsOf(data: seq<u8>, escaping: bool, current: seq<u8>, escaped: bool): seq<seq<u8>>
    decreases |data|
  {
    if data == [] then [current]
    else if escaped then WordsOf(data[1..], escaping, current + [Flip(data[0])], false)
    else if escaping && data[0] == BRACE then WordsOf(data[1..], escaping, current, true)
    else if Separator(data[0]) then [current] + WordsOf(data[1..], escaping, [], false)
    else WordsOf(data[1..], escaping, current + [data[0]], false)
  }

  /** GDBServer.unpack; with `escaping` the variant whose '}' test compares integers. */
  method Unpack(data: seq<u8>, checksum: seq<u8>, escaping: bool) returns (r: Unpacked)
    ensures r == UnpackedOf(data, checksum, escaping)
    ensures r.Words? <==> ChecksumMatches(data, checksum)
    ensures r.ValueError? <==> Unreadable(checksum)
  {
    ChecksumDecides(data, checksum, escaping);
    hide ChecksumMatches, Unreadable;
    if |checksum| != 2 {
      return Corrupt;
    }
    var c0, c1 := Lower(checksum[0]), Lower(checksum[1]);
    if !(48 <= c0 <= 102) || !(48 <= c1 <= 102) {
      return Corrupt;
    }
    if HexValue(c0) < 0 || HexValue(c1) < 0 {
      return ValueError;
    }
    if Sum(data) % 0x100 != 16 * HexValue(c0) + HexValue(c1) {
      return Corrupt;
    }
    var result: seq<seq<u8>>, current: seq<u8>, escaped := [], [], false;
    for i := 0 to |data|
      invariant result + WordsOf(data[i..], escaping, current, escaped) == WordsOf(data, escaping, [], false)
    {
      var c := data[i];
      assert data[i..][1..] == data[i + 1..];
      if escaped {
        current := current + [Flip(c)];
        escaped := false;
      } else if escaping && c == BRACE {
        escaped := true;
      } else if Separator(c) {
        result := result + [current];
        current := [];
      } else {
        current := current + [c];
      }
    }
    r := Words(result + [current]);
  }

  /** The checks come in the order in which Python evaluates them. */
  function UnpackedOf(data: seq<u8>, checksum: seq<u8>, escaping: bool): Unpacked {
    if |checksum| != 2 || !(48 <= Lower(checksum[0]) <= 102) || !(48 <= Lower(checksum[1]) <= 102) then Corrupt
    else
      var high, low := HexValue(Lower(checksum[0])), HexValue(Lower(checksum[1]));
      if high < 0 || low < 0 then ValueError
      else if Sum(data) % 0x100 != 16 * high + low then Corrupt
      else Words(WordsOf(data, escaping, [], false))
  }

  // ---- When a packet is accepted

  /** The character of a hexadecimal digit, in either case. */
  predicate IsDigit(c: u8, d: int) {
    0 <= d < 16 && (c == "0123456789abcdef"[d] as int || c == "0123456789ABCDEF"[d] as int)
  }

  function ByteTotal(data: seq<u8>): nat {
    if data == [] then 0 else ByteTotal(data[..|data| - 1]) + data[|data| - 1]
  }

  /** Two hexadecimal digits whose value is the sum of the bytes modulo 256. */
  ghost predicate ChecksumMatches(data: seq<u8>, checksum: seq<u8>) {
    && |checksum| == 2
    && exists h, l :: IsDigit(checksum[0], h) && IsDigit(checksum[1], l) && 16 * h + l == ByteTotal(data) % 0x100
  }

  /** What passes the comparisons with '0' and 'f' after lower(). */
  predicate InSpan(c: u8) {
    48 <= c <= 70 || 91 <= c <= 102
  }

  /** Two characters that int() is asked about and refuses. */
  ghost predicate Unreadable(checksum: seq<u8>) {
    && |checksum| == 2 && InSpan(checksum[0]) && InSpan(checksum[1])
    && ((forall d :: !IsDigit(checksum[0], d)) || (forall d :: !IsDigit(checksum[1], d)))
  }

  lemma {:induction false} SumAppend(data: seq<u8>, c: u8)
    ensures Sum(data + [c]) == Sum(data) + c
  {
    if data == [] {
      assert data + [c] == [c] && [c][1..] == [];
    } else {
      SumAppend(data[1..], c);
      assert (data + [c])[1..] == data[1..] + [c];
    }
  }

  lemma {:induction false} SumIsTotal(data: seq<u8>)
    ensures Sum(data) == ByteTotal(data)
  {
    if data != [] {
      var last := |data| - 1;
      SumIsTotal(data[..last]);
      SumAppend(data[..last], data[last]);
      assert data[..last] + [data[last]] == data;
    }
  }

  lemma LowerDigit(c: u8)
    ensures IsDigit(c, HexValue(Lower(c))) <==> HexValue(Lower(c)) >= 0
    ensures 48 <= Lower(c) <= 102 <==> InSpan(c)
  {
  }

  lemma OnlyDigit(c: u8, d: int)
    requires IsDigit(c, d)
    ensures d == HexValue(Lower(c)) && InSpan(c)
  {
  }

  /** A packet is accepted iff its checksum is right, and int() raises iff it is no number. */
  lemma ChecksumDecides(data: seq<u8>, checksum: seq<u8>, escaping: bool)
    ensures var r := UnpackedOf(data, checksum, escaping);
            && (r.Words? <==> ChecksumMatches(data, checksum))
            && (r.ValueError? <==> Unreadable(checksum))
            && (r.Corrupt? <==> !ChecksumMatches(data, checksum) && !Unreadable(checksum))
  {
    hide Sum, ByteTotal, WordsOf, IsDigit, InSpan, Lower, HexValue;
    SumIsTotal(data);
    if |checksum| == 2 {
      LowerDigit(checksum[0]);
      LowerDigit(checksum[1]);
      forall d | IsDigit(checksum[0], d) ensures d == HexValue(Lower(checksum[0])) && InSpan(checksum[0]) {
        OnlyDigit(checksum[0], d);
      }
      forall d | IsDigit(checksum[1], d) ensures d == HexValue(Lower(checksum[1])) && InSpan(checksum[1]) {
        OnlyDigit(checksum[1], d);
      }
    }
  }

  lemma {:induction false} SumUpdate(data: seq<u8>, i: nat, c: u8)
    requires i < |data|
    ensures Sum(data[i := c]) == Sum(data) - data[i] + c
  {
    if i == 0 {
      assert data[0 := c][1..] == data[1..];
    } else {
      SumUpdate(data[1..], i - 1, c);
      assert data[i := c][1..] == data[1..][i - 1 := c];
    }
  }

  /** One wrong byte in what is sent with its own checksum is always noticed. */
  lemma ChangedByteRefused(data: seq<u8>, i: nat, c: u8, escaping: bool)
    requires i < |data| && c != data[i]
    ensures UnpackedOf(data[i := c], Checksum(data), escaping) == Corrupt
  {
    hide Sum, WordsOf, Lower, HexValue, Checksum;
    ChecksumAccepted(data);
    SumUpdate(data, i, c);
    DifferentRemainder(Sum(data), c - data[i]);
  }

  lemma DifferentRemainder(sum: int, d: int)
    requires -0x100 < d < 0x100 && d != 0
    ensures (sum + d) % 0x100 != sum % 0x100
  {
  }

  /** The escape mask, the separators and the digits, by their values. */
  lemma PacketBytes()
    ensures forall c: u8 :: Flip(Flip(c)) == c && (Flip(c) == c + 32 || Flip(c) == c - 32)
    ensures forall c: u8 :: Special(c) <==> c == '$' as int || c == '#' as int || c == '}' as int
    ensures forall c: u8 :: Separator(c) <==> c == ',' as int || c == ':' as int || c == ';' as int
    ensures Flip(0x24) == 0x04 && Flip(0x23) == 0x03 && Flip(0x7d) == 0x5d
    ensures Packet([[0x4f, 0x4b]]) == [0x24, 0x4f, 0x4b, 0x23, 0x39, 0x61]
    ensures Packet([[0x24], [0x62]]) == [0x24, 0x7d, 0x04, 0x3b, 0x62, 0x23, 0x31, 0x65]
  {
    OneWord();
    TwoWords();
  }

  lemma OneWord()
    ensures Packet([[0x4f, 0x4b]]) == [0x24, 0x4f, 0x4b, 0x23, 0x39, 0x61]
  {
    var w: seq<u8> := [0x4f, 0x4b];
    assert w[1..] == [0x4b] && w[1..][1..] == [];
    assert Escape(w[1..]) == [0x4b];
    assert Payload([w]) == w && Sum(w[1..]) == 0x4b && Sum(w) == 0x9a;
  }

  lemma TwoWords()
    ensures Packet([[0x24], [0x62]]) == [0x24, 0x7d, 0x04, 0x3b, 0x62, 0x23, 0x31, 0x65]
  {
    var v: seq<u8>, w: seq<u8> := [0x24], [0x62];
    var p: seq<u8> := [0x7d, 0x04, 0x3b, 0x62];
    assert v[1..] == [] && w[1..] == [] && Escape(v) == [0x7d, 0x04] && Escape(w) == w;
    assert [v, w][1..] == [w] && Payload([w]) == w;
    assert Payload([v, w]) == p;
    assert p[3..] == [0x62] && p[2..][1..] == p[3..] && p[1..][1..] == p[2..] && p[3..][1..] == [];
    assert Sum(p[3..]) == 0x62 && Sum(p[2..]) == 0x9d && Sum(p[1..]) == 0xa1 && Sum(p) == 0x11e;
  }

  /** The separators of a payload, in order. */
  function Separators(data: seq<u8>): seq<u8> {
    if data == [] then [] else (if Separator(data[0]) then [data[0]] else []) + Separators(data[1..])
  }

  /** Words with separators between them. */
  function Glue(words: seq<seq<u8>>, separators: seq<u8>): seq<u8>
    requires |words| == |separators| + 1
  {
    if separators == [] then words[0] else words[0] + [separators[0]] + Glue(words[1..], separators[1..])
  }

  lemma CutStep(data: seq<u8>, current: seq<u8>)
    ensures WordsOf(data, false, current, false) ==
      if data == [] then [current]
      else if Separator(data[0]) then [current] + WordsOf(data[1..], false, [], false)
      else WordsOf(data[1..], false, current + [data[0]], false)
  {
  }

  lemma SeparatorsStep(data: seq<u8>)
    ensures Separators(data) ==
      if data == [] then [] else if Separator(data[0]) then [data[0]] + Separators(data[1..]) else Separators(data[1..])
  {
  }

  lemma PlainMore(current: seq<u8>, c: u8)
    requires Plain(current)
    ensures Plain([]) && (!Separator(c) ==> Plain(current + [c]))
  {
  }

  lemma GlueOne(word: seq<u8>)
    ensures Glue([word], []) == word
  {
  }

  lemma GlueMore(word: seq<u8>, rest: seq<seq<u8>>, c: u8, separators: seq<u8>)
    requires |rest| == |separators| + 1
    ensures Glue([word] + rest, [c] + separators) == word + [c] + Glue(rest, separators)
  {
    assert ([word] + rest)[1..] == rest && ([c] + separators)[1..] == separators;
  }

  /** As written, unpack cuts at the separators and changes nothing else. */
  lemma {:induction false} CutsAtSeparators(data: seq<u8>, current: seq<u8>)
    requires Plain(current)
    ensures var words := WordsOf(data, false, current, false);
            && |words| == |Separators(data)| + 1
            && (forall w :: w in words ==> Plain(w))
            && Glue(words, Separators(data)) == current + data
  {
    hide WordsOf, Glue, Separators, Separator, Plain;
    CutStep(data, current);
    SeparatorsStep(data);
    if data == [] {
      GlueOne(current);
      assert current + data == current;
    } else {
      PlainMore(current, data[0]);
      assert data == [data[0]] + data[1..];
      if Separator(data[0]) {
        CutsAtSeparators(data[1..], []);
        var rest, more := WordsOf(data[1..], false, [], false), Separators(data[1..]);
        GlueMore(current, rest, data[0], more);
        assert current + [data[0]] + ([] + data[1..]) == current + data;
      } else {
        CutsAtSeparators(data[1..], current + [data[0]]);
        assert current + [data[0]] + data[1..] == current + data;
      }
    }
  }

  // ---- Reading undoes writing

  /** A command list as the proxy exchanges them: at least one word, none with a separator in it. */
  ghost predicate Sendable(words: seq<seq<u8>>) {
    words != [] && forall w :: w in words ==> Plain(w)
  }

  predicate Plain(word: seq<u8>) {
    forall i :: 0 <= i < |word| ==> !Separator(word[i])
  }

  lemma {:induction false} EscapedWord(word: seq<u8>, rest: seq<u8>, escaping: bool, current: seq<u8>)
    requires Plain(word)
    ensures WordsOf(Escape(word) + rest, escaping, current, false)
         == WordsOf(rest, escaping, current + (if escaping then word else Escape(word)), false)
    decreases |word|
  {
    if word == [] {
      assert Escape(word) + rest == rest && current + [] == current;
    } else {
      var c := word[0];
      var head: seq<u8> := if Special(c) then [BRACE, Flip(c)] else [c];
      var tail := Escape(word[1..]) + rest;
      assert Escape(word) == head + Escape(word[1..]);
      assert Escape(word) + rest == head + tail;
      EscapedByte(c, tail, escaping, current);
      var current' := current + (if escaping then [c] else head);
      EscapedWord(word[1..], rest, escaping, current');
      hide WordsOf, Escape, Special, Flip;
      assert current + word == current + [c] + word[1..];
      assert current + Escape(word) == current + head + Escape(word[1..]);
    }
  }

  lemma {:induction false} EscapedByte(c: u8, tail: seq<u8>, escaping: bool, current: seq<u8>)
    requires !Separator(c)
    ensures var head: seq<u8> := if Special(c) then [BRACE, Flip(c)] else [c];
            WordsOf(head + tail, escaping, current, false)
            == WordsOf(tail, escaping, current + (if escaping then [c] else head), false)
  {
    assert ([c] + tail)[1..] == tail;
    if Special(c) {
      var d := Flip(c);
      assert Flip(d) == c && !Separator(d) && d != BRACE;
      assert [BRACE, d] + tail == [BRACE] + ([d] + tail);
      assert ([BRACE] + ([d] + tail))[1..] == [d] + tail;
      assert ([d] + tail)[1..] == tail;
      assert current + [BRACE] + [d] == current + [BRACE, d];
    }
  }

  /** The words of a payload are the escaped words; with a working '}' test they are the words. */
  lemma {:induction false} PayloadWords(words: seq<seq<u8>>, escaping: bool)
    requires Sendable(words)
    ensures WordsOf(Payload(words), escaping, [], false) == if escaping then words else EscapeAll(words)
    decreases |words|
  {
    var first, rest := words[0], words[1..];
    assert Plain(first);
    if rest == [] {
      EscapedWord(first, [], escaping, []);
      assert Escape(first) + [] == Escape(first);
      assert [] + Escape(first) == Escape(first) && [] + first == first;
      assert words == [first] && EscapeAll(words) == [Escape(first)] + EscapeAll(rest);
    } else {
      var tail := [SEMICOLON] + Payload(rest);
      EscapedWord(first, tail, escaping, []);
      assert Payload(words) == Escape(first) + tail;
      assert tail[1..] == Payload(rest);
      forall w | w in rest ensures Plain(w) {
        assert w in words;
      }
      PayloadWords(rest, escaping);
      assert words == [first] + rest;
    }
  }

  lemma {:induction false} NoHash(word: seq<u8>)
    ensures HASH !in Escape(word)
  {
    if word != [] {
      NoHash(word[1..]);
    }
  }

  lemma {:induction false} NoHashInPayload(words: seq<seq<u8>>)
    ensures HASH !in Payload(words)
  {
    if words != [] {
      NoHash(words[0]);
      NoHashInPayload(words[1..]);
    }
  }

  lemma DigitValue(d: int)
    requires 0 <= d < 16
    ensures var c := Lower(HexDigit(d)); 48 <= c <= 102 && HexValue(c) == d
  {
  }

  /** unpack accepts the checksum that pack computed. */
  lemma {:induction false} UnpackPayload(words: seq<seq<u8>>, escaping: bool)
    requires Sendable(words)
    ensures UnpackedOf(Payload(words), Checksum(Payload(words)), escaping)
         == Words(if escaping then words else EscapeAll(words))
  {
    hide WordsOf, Sum, Payload, EscapeAll, HexDigit, HexValue, Lower, Checksum;
    ChecksumAccepted(Payload(words));
    PayloadWords(words, escaping);
  }

  lemma {:induction false} ChecksumAccepted(data: seq<u8>)
    ensures var c := Checksum(data);
      && |c| == 2 && 48 <= Lower(c[0]) <= 102 && 48 <= Lower(c[1]) <= 102
      && HexValue(Lower(c[0])) >= 0 && HexValue(Lower(c[1])) >= 0
      && Sum(data) % 0x100 == 16 * HexValue(Lower(c[0])) + HexValue(Lower(c[1]))
  {
    hide Sum, HexDigit, HexValue, Lower;
    var sum := Sum(data);
    TwoDigits(sum);
    DigitValue(sum % 0x100 / 16);
    DigitValue(sum % 16);
  }

  lemma TwoDigits(sum: nat)
    ensures sum % 0x100 == 16 * (sum % 0x100 / 16) + sum % 16
  {
    assert sum % 0x100 % 16 == sum % 16;
  }

  // ---- The server's read loop

  lemma {:induction false} HashAt(data: seq<u8>, k: nat)
    requires k <= |data| && HASH !in data[..k] && (k < |data| ==> data[k] == HASH)
    ensures IndexOfHash(data) == k
  {
    if k > 0 {
      assert data[0] == data[..k][0];
      assert data[1..][..k - 1] == data[..k][1..];
      HashAt(data[1..], k - 1);
    }
  }

  function IndexOfHash(data: seq<u8>): (k: nat)
    ensures k <= |data| && (k < |data| ==> data[k] == HASH) && HASH !in data[..k]
  {
    if data == [] || data[0] == HASH then 0
    else
      var k := 1 + IndexOfHash(data[1..]);
      assert data[..k] == [data[0]] + data[1..][..k - 1];
      k
  }

  /** What run() unpacks, packet by packet, from everything the client sends. Bytes between packets
      are acks or noise and are dropped; a packet without '#' is waited for; a ValueError ends it. */
  function Served(stream: seq<u8>, escaping: bool): seq<Unpacked>
    decreases |stream|
  {
    if stream == [] then []
    else if stream[0] != DOLLAR then Served(stream[1..], escaping)
    else
      var k := IndexOfHash(stream[1..]);
      if k == |stream[1..]| then []
      else
        var data, rest := stream[1..][..k], stream[1..][k + 1..];
        var n := if |rest| < 2 then |rest| else 2;
        var r := UnpackedOf(data, rest[..n], escaping);
        if r == ValueError then [r] else [r] + Served(rest[n..], escaping)
  }

  /** Whether the loop ends up inside a packet whose '#' never comes. */
  predicate Waits(stream: seq<u8>, escaping: bool)
    decreases |stream|
  {
    if stream == [] then false
    else if stream[0] != DOLLAR then Waits(stream[1..], escaping)
    else
      var k := IndexOfHash(stream[1..]);
      k == |stream[1..]| ||
      var data, rest := stream[1..][..k], stream[1..][k + 1..];
      var n := if |rest| < 2 then |rest| else 2;
      UnpackedOf(data, rest[..n], escaping) != ValueError && Waits(rest[n..], escaping)
  }

  /** GDBServer.run on a stream that the client closes after `stream`; the handlers are not part of
      it. `waiting` says that the loop inside a packet never sees its '#'. */
  method Run(stream: seq<u8>, escaping: bool) returns (results: seq<Unpacked>, waiting: bool)
    ensures results == Served(stream, escaping) && waiting == Waits(stream, escaping)
  {
    hide IndexOfHash, UnpackedOf, Served, Waits, ChecksumMatches, Unreadable, BytesOf;
    results, waiting := [], false;
    var p := 0;
    while p < |stream|
      invariant 0 <= p <= |stream|
      invariant results + Served(stream[p..], escaping) == Served(stream, escaping)
      invariant Waits(stream[p..], escaping) == Waits(stream, escaping) && !waiting
      decreases |stream| - p
    {
      ghost var at := stream[p..];
      var packetType := stream[p];
      p := p + 1;
      assert at[1..] == stream[p..];
      if packetType == DOLLAR {
        var closed, data, checksum;
        closed, data, checksum, p := ReadPacket(stream, p);
        if !closed {
          ServedWaiting(at, data, escaping);
          return results, true;
        }
        ServedPacket(at, data, checksum, stream[p..], escaping);
        var r := Unpack(data, checksum, escaping);
        Grouped(results, r, Served(stream[p..], escaping));
        results := results + [r];
        if r == ValueError {
          return results, false;
        }
      } else {
        ServedNoise(at, escaping);
      }
    }
    assert stream[p..] == [];
    ServedNothing(escaping);
  }

  lemma Grouped(results: seq<Unpacked>, r: Unpacked, rest: seq<Unpacked>)
    ensures results + [r] + rest == results + ([r] + rest)
  {
  }

  lemma {:induction false} ServedNoise(at: seq<u8>, escaping: bool)
    requires at != [] && at[0] != DOLLAR
    ensures Served(at, escaping) == Served(at[1..], escaping) && Waits(at, escaping) == Waits(at[1..], escaping)
  {
  }

  lemma {:induction false} ServedWaiting(at: seq<u8>, data: seq<u8>, escaping: bool)
    requires at != [] && at[0] == DOLLAR && at[1..] == data && HASH !in data
    ensures Served(at, escaping) == [] && Waits(at, escaping)
  {
    HashAt(data, |data|);
  }

  lemma {:induction false} ServedPacket(at: seq<u8>, data: seq<u8>, checksum: seq<u8>, next: seq<u8>, escaping: bool)
    requires at != [] && at[0] == DOLLAR && HASH !in data
    requires at[1..] == data + [HASH] + checksum + next && (|checksum| == 2 || (|checksum| < 2 && next == []))
    ensures var r := UnpackedOf(data, checksum, escaping);
            && Served(at, escaping) == (if r == ValueError then [r] else [r] + Served(next, escaping))
            && (Waits(at, escaping) <==> r != ValueError && Waits(next, escaping))
  {
    hide UnpackedOf, IndexOfHash;
    var inside := at[1..];
    assert inside[..|data|] == data && inside[|data|] == HASH;
    HashAt(inside, |data|);
    assert inside[|data| + 1..] == checksum + next;
    assert (checksum + next)[..|checksum|] == checksum && (checksum + next)[|checksum|..] == next;
  }

  /** The inner loop: byte by byte up to the next '#', or to the end of what there is. */
  method ReadToHash(stream: seq<u8>, p: nat) returns (data: seq<u8>)
    requires p <= |stream|
    ensures p + |data| <= |stream| && data == stream[p..p + |data|] == stream[p..][..|data|] && HASH !in data
    ensures p + |data| < |stream| ==> stream[p + |data|] == HASH
  {
    data := [];
    var q := p;
    while q < |stream| && stream[q] != HASH
      invariant p <= q <= |stream| && data == stream[p..q] && HASH !in data
    {
      data := data + [stream[q]];
      q := q + 1;
    }
  }

  /** Data and checksum behind a '$', and where the loop goes on. */
  method ReadPacket(stream: seq<u8>, p: nat) returns (closed: bool, data: seq<u8>, checksum: seq<u8>, next: nat)
    requires p <= |stream|
    ensures HASH !in data && p <= next <= |stream|
    ensures closed ==> stream[p..] == data + [HASH] + checksum + stream[next..]
    ensures closed ==> |checksum| == 2 || (|checksum| < 2 && stream[next..] == [])
    ensures !closed ==> stream[p..] == data
  {
    data := ReadToHash(stream, p);
    var q := p + |data|;
    if q == |stream| {
      return false, data, [], q;
    }
    closed := true;
    checksum := stream[q + 1..if q + 3 <= |stream| then q + 3 else |stream|];
    next := q + 1 + |checksum|;
    assert stream[p..] == stream[p..q] + [stream[q]] + stream[q + 1..next] + stream[next..];
  }

  /** A command list, after acks or any other bytes that do not begin a packet. */
  datatype Message = Message(noise: seq<u8>, words: seq<seq<u8>>)

  function Stream(messages: seq<Message>): seq<u8> {
    if messages == [] then []
    else messages[0].noise + Packet(messages[0].words) + Stream(messages[1..])
  }

  function WordsSeen(messages: seq<Message>, escaping: bool): seq<Unpacked> {
    if messages == [] then []
    else
      [Words(if escaping then messages[0].words else EscapeAll(messages[0].words))]
      + WordsSeen(messages[1..], escaping)
  }

  lemma {:induction false} NoiseSkipped(noise: seq<u8>, rest: seq<u8>, escaping: bool)
    requires DOLLAR !in noise
    ensures Served(noise + rest, escaping) == Served(rest, escaping)
  {
    if noise == [] {
      assert noise + rest == rest;
    } else {
      assert (noise + rest)[1..] == noise[1..] + rest;
      NoiseSkipped(noise[1..], rest, escaping);
    }
  }

  lemma {:induction false} PacketServed(words: seq<seq<u8>>, rest: seq<u8>, escaping: bool)
    requires Sendable(words)
    ensures Served(Packet(words) + rest, escaping)
         == [Words(if escaping then words else EscapeAll(words))] + Served(rest, escaping)
  {
    hide Payload, UnpackedOf, Checksum, EscapeAll, IndexOfHash, Served;
    var payload := Payload(words);
    ChecksumSize(payload);
    NoHashInPayload(words);
    var stream := Packet(words) + rest;
    assert stream[1..] == payload + [HASH] + Checksum(payload) + rest;
    ServedPacket(stream, payload, Checksum(payload), rest, escaping);
    UnpackPayload(words, escaping);
  }

  lemma ChecksumSize(data: seq<u8>)
    ensures |Checksum(data)| == 2
  {
  }

  /** The framing is uniquely decodable: from any sequence of packets, with any acks between them,
      the read loop recovers each list in order with its checksum accepted. As written it hands out
      the escaped words; with the '}' test on integers it hands out the words that were sent. */
  lemma {:induction false} StreamRecovered(messages: seq<Message>, tail: seq<u8>, escaping: bool)
    requires forall i :: 0 <= i < |messages| ==> DOLLAR !in messages[i].noise && Sendable(messages[i].words)
    requires DOLLAR !in tail
    ensures Served(Stream(messages) + tail, escaping) == WordsSeen(messages, escaping)
    decreases |messages|
  {
    hide Served, Packet, Sendable;
    if messages == [] {
      NoiseSkipped(tail, [], escaping);
      assert Stream(messages) + tail == tail + [];
      ServedNothing(escaping);
    } else {
      var rest := Stream(messages[1..]) + tail;
      assert Stream(messages) + tail == messages[0].noise + (Packet(messages[0].words) + rest);
      NoiseSkipped(messages[0].noise, Packet(messages[0].words) + rest, escaping);
      PacketServed(messages[0].words, rest, escaping);
      StreamRecovered(messages[1..], tail, escaping);
    }
  }

  lemma ServedNothing(escaping: bool)
    ensures Served([], escaping) == [] && !Waits([], escaping)
  {
  }

  /** The words come back unchanged from the code as written iff nothing in them needs escaping. */
  lemma {:induction false} EscapeChanges(word: seq<u8>)
    ensures Escape(word) == word <==> forall i :: 0 <= i < |word| ==> !Special(word[i])
    ensures |Escape(word)| >= |word|
  {
    if word != [] {
      EscapeChanges(word[1..]);
      assert forall i :: 0 <= i < |word| ==> (i == 0 || word[i] == word[1..][i - 1]);
      if Escape(word) == word {
        assert |Escape(word)| == |word|;
        assert !Special(word[0]);
        assert Escape(word)[1..] == word[1..];
      }
    }
  }
}
