/** Printing a register mask as a list (darm_reglist), and reading the list back. */
module RegList {
  datatype Option<T> = None | Some(value: T)

  const REGISTERS: seq<string> :=
    ["r0", "r1", "r2", "r3", "r4", "r5", "r6", "r7", "r8", "r9", "r10", "r11", "r12", "SP", "LR", "PC"]

  /** Names that a list can be read back from: no separator in any of them, all different. */
  ghost predicate Readable(names: seq<string>) {
    && (forall i :: 0 <= i < |names| ==> ',' !in names[i] && '-' !in names[i])
    && forall i, j :: 0 <= i < j < |names| ==> names[i] != names[j]
  }

  /** Names that darm_reglist can copy: two or three characters and no NUL. The width stays below
      32, the value of ctz(0) on the target. */
  ghost predicate GoodNames(names: seq<string>) {
    && |names| < 32 && Readable(names)
    && forall i :: 0 <= i < |names| ==> 2 <= |names[i]| <= 3 && '\0' !in names[i]
  }

  /** A mask as the set of its bits. */
  ghost predicate Fits(mask: set<nat>, width: nat) {
    forall x :: x in mask ==> x < width
  }

  /** The bits from lo up to, but not including, hi. */
  function Span(lo: nat, hi: nat): set<nat> {
    set x: nat | x < hi && AtLeast(lo, x)
  }

  predicate AtLeast(lo: nat, x: nat) { lo <= x }

  function From(mask: set<nat>, i: nat): set<nat> {
    set x | x in mask && AtLeast(i, x)
  }

  function FirstFrom(mask: set<nat>, i: nat, width: nat): (k: nat)
    requires width < 32
    ensures k < width ==> i <= k && k in mask
    ensures forall x :: i <= x < k && x < width ==> x !in mask
    ensures k < width || k == 32
    decreases width - i
  {
    if i >= width then 32 else if i in mask then i else FirstFrom(mask, i + 1, width)
  }

  /** __builtin_ctz, which yields 32 for an empty mask. */
  function Ctz(mask: set<nat>, width: nat): nat
    requires width < 32
  {
    FirstFrom(mask, 0, width)
  }

  /** Just past the run of set bits that begins at i. */
  function RunEnd(mask: set<nat>, i: nat, width: nat): (e: nat)
    requires i <= width
    ensures i <= e <= width && (e < width ==> e !in mask)
    ensures forall x :: i <= x < e ==> x in mask
    decreases width - i
  {
    if i < width && i in mask then RunEnd(mask, i + 1, width) else i
  }

  /** "a" for one register, "a,b" for two, "a-b" for more. */
  function Piece(names: seq<string>, start: nat, end: nat): string
    requires start < end <= |names|
  {
    if end == start + 1 then names[start]
    else names[start] + (if end == start + 2 then "," else "-") + names[end - 1]
  }

  /** The runs from bit i on, each followed by a comma. */
  function Runs(names: seq<string>, mask: set<nat>, i: nat): string
    requires i <= |names|
    decreases |names| - i
  {
    if i == |names| then ""
    else if i !in mask then Runs(names, mask, i + 1)
    else
      var e := RunEnd(mask, i, |names|);
      Piece(names, i, e) + "," + Runs(names, mask, e)
  }

  function Printed(names: seq<string>, mask: set<nat>): string
    requires Runs(names, mask, 0) != ""
  {
    var runs := Runs(names, mask, 0);
    "{" + runs[..|runs| - 1] + "}"
  }

  // ---- An independent reader

  function IndexOfChar(text: string, c: char): (k: nat)
    ensures k <= |text| && (k < |text| ==> text[k] == c) && c !in text[..k]
  {
    if text == "" || text[0] == c then 0
    else
      var k := 1 + IndexOfChar(text[1..], c);
      assert text[..k] == [text[0]] + text[1..][..k - 1];
      k
  }

  function NameIndex(names: seq<string>, name: string): (k: nat)
    ensures k <= |names| && (k < |names| ==> names[k] == name)
    ensures forall j :: 0 <= j < k ==> names[j] != name
  {
    if names == [] || names[0] == name then 0 else 1 + NameIndex(names[1..], name)
  }

  /** The first and the last register of one item of a list: a name, or a range of two names. A range
      of fewer than three registers is refused: two neighbours are written one by one. */
  function ParseItem(names: seq<string>, item: string): Option<(nat, nat)> {
    var dash := IndexOfChar(item, '-');
    if dash == |item| then
      var k := NameIndex(names, item);
      if k < |names| then Some((k, k)) else None
    else
      var lo, hi := NameIndex(names, item[..dash]), NameIndex(names, item[dash + 1..]);
      if hi < |names| && lo + 2 <= hi then Some((lo, hi)) else None
  }

  /** Items that each end in a comma, in increasing order, none below `from`. */
  function ParseItems(names: seq<string>, text: string, from: nat): Option<set<nat>>
    decreases |text|
  {
    if text == "" then Some({})
    else
      var comma := IndexOfChar(text, ',');
      if comma == |text| then None
      else
        var item := ParseItem(names, text[..comma]);
        if item.None? || item.value.0 < from then None
        else
          var rest := ParseItems(names, text[comma + 1..], item.value.1 + 1);
          if rest.None? then None else Some(Span(item.value.0, item.value.1 + 1) + rest.value)
  }

  function ParseList(names: seq<string>, text: string): Option<set<nat>> {
    if |text| >= 2 && text[0] == '{' && text[|text| - 1] == '}'
    then ParseItems(names, text[1..|text| - 1] + ",", 0) else None
  }

  // ---- Reading undoes printing

  lemma {:induction false} CharIndex(a: string, c: char, b: string)
    requires c !in a
    ensures IndexOfChar(a + [c] + b, c) == |a|
  {
    var text := a + [c] + b;
    if a != [] {
      assert text[1..] == a[1..] + [c] + b;
      CharIndex(a[1..], c, b);
    }
  }

  lemma NoChar(a: string, c: char)
    requires c !in a
    ensures IndexOfChar(a, c) == |a|
  {
  }

  lemma NameFound(names: seq<string>, k: nat)
    requires Readable(names) && k < |names|
    ensures NameIndex(names, names[k]) == k
  {
  }

  lemma {:induction false} FirstItem(names: seq<string>, item: string, rest: string, from: nat, lo: nat, hi: nat)
    requires ',' !in item && ParseItem(names, item) == Some((lo, hi)) && from <= lo
    requires ParseItems(names, rest, hi + 1).Some?
    ensures ParseItems(names, item + "," + rest, from)
         == Some(Span(lo, hi + 1) + ParseItems(names, rest, hi + 1).value)
  {
    hide ParseItems, ParseItem, IndexOfChar, Span;
    var text := item + "," + rest;
    CharIndex(item, ',', rest);
    assert text[..|item|] == item && text[|item| + 1..] == rest;
    ItemsUnfold(names, text, from);
  }

  lemma ItemsUnfold(names: seq<string>, text: string, from: nat)
    requires text != "" && IndexOfChar(text, ',') < |text|
    ensures var comma := IndexOfChar(text, ','); var item := ParseItem(names, text[..comma]);
            item.Some? && from <= item.value.0 ==>
              var rest := ParseItems(names, text[comma + 1..], item.value.1 + 1);
              rest.Some? ==>
                ParseItems(names, text, from) == Some(Span(item.value.0, item.value.1 + 1) + rest.value)
  {
    hide ParseItem, IndexOfChar, Span;
  }

  lemma {:induction false} ItemOfName(names: seq<string>, k: nat)
    requires Readable(names) && k < |names|
    ensures ',' !in names[k] && ParseItem(names, names[k]) == Some((k, k))
  {
    NoChar(names[k], '-');
    NameFound(names, k);
  }

  lemma {:induction false} ItemOfRange(names: seq<string>, lo: nat, hi: nat)
    requires Readable(names) && lo + 2 <= hi < |names|
    ensures ',' !in names[lo] + "-" + names[hi]
    ensures ParseItem(names, names[lo] + "-" + names[hi]) == Some((lo, hi))
  {
    var item := names[lo] + "-" + names[hi];
    CharIndex(names[lo], '-', names[hi]);
    assert item[..|names[lo]|] == names[lo] && item[|names[lo]| + 1..] == names[hi];
    NameFound(names, lo);
    NameFound(names, hi);
  }

  /** Reading one printed run. */
  lemma {:induction false} PieceParses(names: seq<string>, start: nat, end: nat, rest: string, from: nat)
    requires Readable(names) && from <= start < end <= |names| && ParseItems(names, rest, end).Some?
    ensures ParseItems(names, Piece(names, start, end) + "," + rest, from)
         == Some(Span(start, end) + ParseItems(names, rest, end).value)
  {
    hide ParseItems, ParseItem, Readable;
    ItemOfName(names, start);
    ItemOfName(names, end - 1);
    if end == start + 1 {
      FirstItem(names, names[start], rest, from, start, start);
    } else if end == start + 2 {
      FirstItem(names, names[end - 1], rest, end - 1, end - 1, end - 1);
      FirstItem(names, names[start], names[end - 1] + "," + rest, from, start, start);
      assert Piece(names, start, end) + "," + rest == names[start] + "," + (names[end - 1] + "," + rest);
      var others := ParseItems(names, rest, end).value;
      assert Span(start, start + 1) + (Span(end - 1, end) + others) == Span(start, end) + others;
    } else {
      ItemOfRange(names, start, end - 1);
      FirstItem(names, Piece(names, start, end), rest, from, start, end - 1);
    }
  }

  lemma {:induction false} RunsParse(names: seq<string>, mask: set<nat>, i: nat, from: nat)
    requires Readable(names) && Fits(mask, |names|) && from <= i <= |names|
    ensures ParseItems(names, Runs(names, mask, i), from) == Some(From(mask, i))
    decreases |names| - i
  {
    if i == |names| {
      assert From(mask, i) == {};
    } else if i !in mask {
      RunsParse(names, mask, i + 1, from);
      assert From(mask, i) == From(mask, i + 1);
    } else {
      var e := RunEnd(mask, i, |names|);
      RunsParse(names, mask, e, e);
      RunsStep(names, mask, i);
      hide ParseItems, Piece, Readable, Runs, Fits;
      PieceParses(names, i, e, Runs(names, mask, e), from);
      assert From(mask, i) == Span(i, e) + From(mask, e);
    }
  }

  lemma {:induction false} RunsEndInComma(names: seq<string>, mask: set<nat>, i: nat)
    requires i <= |names|
    ensures var r := Runs(names, mask, i); r != "" ==> r[|r| - 1] == ','
    ensures Runs(names, mask, i) == "" <==> forall x :: i <= x < |names| ==> x !in mask
    decreases |names| - i
  {
    if i < |names| {
      RunsEndInComma(names, mask, if i in mask then RunEnd(mask, i, |names|) else i + 1);
    }
  }

  /** Reading what was printed gives back exactly the mask. */
  lemma {:induction false} ParsePrinted(names: seq<string>, mask: set<nat>)
    requires Readable(names) && Fits(mask, |names|) && mask != {}
    ensures Runs(names, mask, 0) != "" && ParseList(names, Printed(names, mask)) == Some(mask)
  {
    hide Runs, ParseItems;
    RunsEndInComma(names, mask, 0);
    RunsParse(names, mask, 0, 0);
    var runs := Runs(names, mask, 0);
    var x :| x in mask;
    assert 0 <= x < |names|;
    assert Printed(names, mask)[1..|runs|] + "," == runs;
    assert From(mask, 0) == mask;
  }

  predicate ThreeFrom(mask: set<nat>, x: nat) {
    x in mask && x + 1 in mask && x + 2 in mask
  }

  lemma NoneBeyond(mask: set<nat>, i: nat, width: nat)
    requires Fits(mask, width)
    ensures i == width ==> forall x :: i <= x ==> !ThreeFrom(mask, x)
  {
  }

  lemma NotThere(mask: set<nat>, e: nat, width: nat)
    requires Fits(mask, width) && e <= width && (e < width ==> e !in mask)
    ensures e !in mask
  {
  }

  lemma ThreeIn(mask: set<nat>, i: nat, e: nat)
    requires i + 3 <= e && forall x :: i <= x < e ==> x in mask
    ensures ThreeFrom(mask, i)
  {
  }

  lemma NoneBetween(mask: set<nat>, i: nat, e: nat)
    requires i <= e < i + 3
    requires e !in mask || (e == i + 1 && i !in mask)
    ensures forall x :: i <= x < e ==> !ThreeFrom(mask, x)
  {
  }

  lemma HyphenInPiece(names: seq<string>, start: nat, end: nat)
    requires Readable(names) && start < end <= |names|
    ensures '-' in Piece(names, start, end) <==> end >= start + 3
  {
    if end >= start + 3 {
      assert Piece(names, start, end)[|names[start]|] == '-';
    }
  }

  lemma {:induction false} HyphenInRuns(names: seq<string>, mask: set<nat>, i: nat)
    requires Readable(names) && Fits(mask, |names|) && i <= |names|
    ensures '-' in Runs(names, mask, i) <==> exists x :: i <= x && ThreeFrom(mask, x)
    decreases |names| - i
  {
    hide ThreeFrom, Readable, Fits;
    NoneBeyond(mask, i, |names|);
    if i == |names| {
    } else if i !in mask {
      HyphenInRuns(names, mask, i + 1);
      NoneBetween(mask, i, i + 1);
    } else {
      var e := RunEnd(mask, i, |names|);
      RunsStep(names, mask, i);
      HyphenInRuns(names, mask, e);
      HyphenInPiece(names, i, e);
      if e >= i + 3 {
        assert ThreeFrom(mask, i) by { ThreeIn(mask, i, e); }
      } else {
        assert e !in mask by { NotThere(mask, e, |names|); }
        NoneBetween(mask, i, e);
      }
    }
  }

  /** A hyphen is printed iff some three neighbouring registers are listed. */
  lemma {:induction false} HyphenExact(names: seq<string>, mask: set<nat>)
    requires Readable(names) && Fits(mask, |names|) && Runs(names, mask, 0) != ""
    ensures '-' in Printed(names, mask) <==> exists x :: ThreeFrom(mask, x)
  {
    hide Runs;
    HyphenInRuns(names, mask, 0);
    RunsEndInComma(names, mask, 0);
    var runs := Runs(names, mask, 0);
    var last := |runs| - 1;
    assert runs == runs[..last] + [','];
    assert forall x :: ThreeFrom(mask, x) ==> 0 <= x;
  }

  // ---- The printer itself

  /** darm_reglist into out[0..], which must have room for the text and its final NUL. */
  method Reglist(names: seq<string>, mask: set<nat>, out: array<char>) returns (length: int)
    requires GoodNames(names) && Fits(mask, |names|) && (mask != {} ==> |Runs(names, mask, 0)| + 1 < out.Length)
    modifies out
    ensures mask == {} <==> length == -1
    ensures mask == {} ==> out[..] == old(out[..])
    ensures mask != {} ==>
      (Runs(names, mask, 0) != "" && length == |Printed(names, mask)| < out.Length &&
       out[..length] == Printed(names, mask) && out[length] == '\0')
  {
    hide GoodNames, Runs, Piece, RunEnd, Ctz, Fits;
    var width := |names|;
    NamesAre(names);
    if mask == {} {
      return -1;
    }
    ghost var whole := Runs(names, mask, 0);
    out[0] := '{';
    var p, reglist := 1, mask;
    ghost var cur: nat := 0;
    assert From(mask, 0) == mask && "{" + whole == out[..1] + whole;
    while reglist != {}
      invariant cur <= width && reglist == From(mask, cur)
      invariant 1 <= p < out.Length && p + |Runs(names, mask, cur)| == |whole| + 1
      invariant out[..p] + Runs(names, mask, cur) == "{" + whole
      decreases width - cur
    {
      var start := Ctz(reglist, width);
      NextRun(names, mask, cur, start);
      var reg;
      RunsStep(names, mask, start);
      reg, reglist := ClearRun(mask, start, reglist, width);
      p := PutPiece(out, p, names, start, reg);
      out[p] := ',';
      p := p + 1;
      cur := reg;
    }
    RunsEndInComma(names, mask, cur);
    RunsEndInComma(names, mask, 0);
    assert Runs(names, mask, cur) == "" by { NothingLeft(mask, cur); }
    assert out[..p] == "{" + whole;
    out[p - 1] := '}';
    out[p] := '\0';
    length := p;
    assert out[..length] == Printed(names, mask);
  }

  /** The inner loop: the run that begins at start is taken out of the mask. */
  method ClearRun(mask: set<nat>, start: nat, list: set<nat>, width: nat) returns (reg: nat, reglist: set<nat>)
    requires width < 32 && Fits(mask, width) && start < width && start in mask && list == From(mask, start)
    ensures reg == RunEnd(mask, start, width) && start < reg && reglist == From(mask, reg)
  {
    reg, reglist := start, list;
    while reg == Ctz(reglist, width)
      invariant start <= reg <= width && reglist == From(mask, reg)
      invariant forall x :: start <= x < reg ==> x in mask
      decreases width - reg
    {
      LowestBit(mask, reg, width);
      reglist := reglist - {reg};
      reg := reg + 1;
      assert reglist == From(mask, reg);
    }
    RunStops(mask, start, reg, width);
  }

  /** One run: a name, and for a longer run a separator and the last name. */
  method PutPiece(out: array<char>, p: nat, names: seq<string>, start: nat, reg: nat) returns (q: nat)
    requires GoodNames(names) && start < reg <= |names| && p + |Piece(names, start, reg)| + 1 < out.Length
    modifies out
    ensures q == p + |Piece(names, start, reg)| && out[..q] == old(out[..p]) + Piece(names, start, reg)
  {
    NamesAre(names);
    q := Append(out, p, names[start]);
    if reg != start + 1 {
      out[q] := if reg == start + 2 then ',' else '-';
      q := q + 1;
      q := Append(out, q, names[reg - 1]);
    }
  }

  lemma {:induction false} RunsStep(names: seq<string>, mask: set<nat>, i: nat)
    requires i < |names| && i in mask
    ensures var e := RunEnd(mask, i, |names|);
            i < e && Runs(names, mask, i) == Piece(names, i, e) + "," + Runs(names, mask, e)
  {
  }

  lemma LowestBit(mask: set<nat>, reg: nat, width: nat)
    requires width < 32 && reg <= width
    ensures reg == Ctz(From(mask, reg), width) <==> reg < width && reg in mask
  {
    var k := Ctz(From(mask, reg), width);
    if reg < width && reg in mask {
      assert reg in From(mask, reg) && reg < 32;
    }
  }

  /** The inner loop leaves at the end of the run. */
  lemma RunStops(mask: set<nat>, start: nat, reg: nat, width: nat)
    requires width < 32 && start <= reg <= width && reg != Ctz(From(mask, reg), width)
    requires forall x :: start <= x < reg ==> x in mask
    ensures reg == RunEnd(mask, start, width)
  {
    LowestBit(mask, reg, width);
    var e := RunEnd(mask, start, width);
    assert e < reg ==> e in mask;
    assert reg < e ==> reg in mask;
  }

  lemma NothingLeft(mask: set<nat>, cur: nat)
    requires From(mask, cur) == {}
    ensures forall x :: cur <= x ==> x !in mask
  {
    forall x: nat | cur <= x ensures x !in mask {
      assert x !in From(mask, cur);
    }
  }

  /** The lowest remaining bit begins the next run, and nothing is printed for the gap before it. */
  lemma {:induction false} NextRun(names: seq<string>, mask: set<nat>, cur: nat, start: nat)
    requires |names| < 32 && Fits(mask, |names|) && cur <= |names| && From(mask, cur) != {}
    requires start == Ctz(From(mask, cur), |names|)
    ensures cur <= start < |names| && start in mask && From(mask, start) == From(mask, cur)
    ensures Runs(names, mask, cur) == Runs(names, mask, start)
  {
    var x :| x in From(mask, cur);
    assert x < |names|;
    assert start < |names|;
    forall y | cur <= y < start ensures y !in mask {
      assert y !in From(mask, cur);
    }
    Gap(names, mask, cur, start);
  }

  lemma {:induction false} Gap(names: seq<string>, mask: set<nat>, cur: nat, start: nat)
    requires cur <= start <= |names| && forall y :: cur <= y < start ==> y !in mask
    ensures Runs(names, mask, cur) == Runs(names, mask, start)
    decreases start - cur
  {
    if cur < start {
      Gap(names, mask, cur + 1, start);
    }
  }

  lemma NamesAre(names: seq<string>)
    requires GoodNames(names)
    ensures |names| < 32 && forall i :: 0 <= i < |names| ==> 2 <= |names[i]| <= 3 && '\0' !in names[i]
  {
  }

  /** Copying a name: two characters, then the third or its NUL, which the next store overwrites. */
  method Append(out: array<char>, p: nat, name: string) returns (q: nat)
    requires 2 <= |name| <= 3 && '\0' !in name && p + |name| + 1 < out.Length
    modifies out
    ensures q == p + |name| && out[..q] == old(out[..p]) + name
  {
    out[p] := name[0];
    out[p + 1] := name[1];
    out[p + 2] := if |name| == 3 then name[2] else '\0';
    q := p + 2 + (if out[p + 2] != '\0' then 1 else 0);
  }

  // ---- The shape and the length of a list

  /** The printed runs from bit i on, as half-open intervals. */
  function RunList(mask: set<nat>, i: nat, width: nat): seq<(nat, nat)>
    requires i <= width
    decreases width - i
  {
    if i == width then []
    else if i !in mask then RunList(mask, i + 1, width)
    else [(i, RunEnd(mask, i, width))] + RunList(mask, RunEnd(mask, i, width), width)
  }

  function Pieces(names: seq<string>, runs: seq<(nat, nat)>): string
    requires forall k :: 0 <= k < |runs| ==> runs[k].0 < runs[k].1 <= |names|
  {
    if runs == [] then "" else Piece(names, runs[0].0, runs[0].1) + "," + Pieces(names, runs[1..])
  }

  /** A run of set bits that no neighbouring bit could join. */
  ghost predicate MaximalRun(mask: set<nat>, run: (nat, nat), width: nat) {
    && run.0 < run.1 <= width && (forall x :: run.0 <= x < run.1 ==> x in mask)
    && (run.0 == 0 || run.0 - 1 !in mask) && (run.1 == width || run.1 !in mask)
  }

  /** What is printed is the list of the maximal runs of the mask, in increasing order. */
  lemma {:induction false} RunsAreMaximal(names: seq<string>, mask: set<nat>, i: nat)
    requires Fits(mask, |names|) && i <= |names| && (i == 0 || i !in mask || i - 1 !in mask)
    ensures var runs := RunList(mask, i, |names|);
      && (forall k :: 0 <= k < |runs| ==> MaximalRun(mask, runs[k], |names|) && i <= runs[k].0)
      && (forall k :: 0 < k < |runs| ==> runs[k - 1].1 < runs[k].0)
      && Runs(names, mask, i) == Pieces(names, runs)
    decreases |names| - i
  {
    if i < |names| {
      if i !in mask {
        RunsAreMaximal(names, mask, i + 1);
      } else {
        var e := RunEnd(mask, i, |names|);
        RunsAreMaximal(names, mask, e);
        var rest, runs := RunList(mask, e, |names|), RunList(mask, i, |names|);
        assert i < e && MaximalRun(mask, (i, e), |names|);
        RunsStep(names, mask, i);
        assert runs == [(i, e)] + rest;
        hide RunList, Runs, Piece, RunEnd, Fits;
        AfterRun(mask, e, |names|, rest);
        RunsJoin(mask, i, e, |names|, rest, runs);
        assert runs[1..] == rest;
      }
    }
  }

  lemma RunsJoin(mask: set<nat>, i: nat, e: nat, width: nat, rest: seq<(nat, nat)>, runs: seq<(nat, nat)>)
    requires runs == [(i, e)] + rest && i < e && MaximalRun(mask, (i, e), width)
    requires forall k :: 0 <= k < |rest| ==> MaximalRun(mask, rest[k], width) && e < rest[k].0
    requires forall k :: 0 < k < |rest| ==> rest[k - 1].1 < rest[k].0
    ensures forall k :: 0 <= k < |runs| ==> MaximalRun(mask, runs[k], width) && i <= runs[k].0
    ensures forall k :: 0 < k < |runs| ==> runs[k - 1].1 < runs[k].0
  {
    forall k | 0 < k < |runs| ensures runs[k - 1].1 < runs[k].0 {
      assert runs[k] == rest[k - 1];
      if k > 1 {
        assert runs[k - 1] == rest[k - 2];
      }
    }
  }

  lemma AfterRun(mask: set<nat>, e: nat, width: nat, rest: seq<(nat, nat)>)
    requires e == width || e !in mask
    requires forall k :: 0 <= k < |rest| ==> MaximalRun(mask, rest[k], width) && e <= rest[k].0
    ensures forall k :: 0 <= k < |rest| ==> e < rest[k].0
  {
    forall k | 0 <= k < |rest| ensures e < rest[k].0 {
      assert MaximalRun(mask, rest[k], width);
      assert rest[k].0 in mask;
    }
  }

  function NameLength(i: nat): nat {
    if 10 <= i <= 12 then 3 else 2
  }

  lemma RealNames()
    ensures GoodNames(REGISTERS) && |REGISTERS| == 16
    ensures forall i :: 0 <= i < 16 ==> |REGISTERS[i]| == NameLength(i)
  {
    forall i, j | 0 <= i < j < |REGISTERS| ensures REGISTERS[i] != REGISTERS[j] {
      NameCode(i);
      NameCode(j);
    }
    forall i | 0 <= i < |REGISTERS|
      ensures 2 <= |REGISTERS[i]| <= 3 && ',' !in REGISTERS[i] && '-' !in REGISTERS[i] && '\0' !in REGISTERS[i]
    {
      NameCode(i);
    }
  }

  /** Which name it is, from its characters. */
  function CodeOf(name: string): int {
    if |name| == 3 && '0' <= name[2] <= '2' then 10 + (name[2] as int - '0' as int)
    else if |name| != 2 then -1
    else if name[0] == 'r' then name[1] as int - '0' as int
    else if name[0] == 'S' then 13 else if name[0] == 'L' then 14 else 15
  }

  lemma NameCode(i: nat)
    requires i < 16
    ensures |REGISTERS| == 16 && |REGISTERS[i]| == NameLength(i) && CodeOf(REGISTERS[i]) == i
    ensures forall k :: 0 <= k < |REGISTERS[i]| ==> REGISTERS[i][k] >= '0'
  {
  }

  /** The most characters that the sixteen names need from bit i on. */
  function Most(i: nat): nat {
    if i == 0 then 35 else if i == 1 then 33 else if i == 2 then 32 else if i == 3 then 29
    else if i == 4 then 27 else if i == 5 then 26 else if i == 6 then 23 else if i == 7 then 21
    else if i == 8 then 20 else if i == 9 then 17 else if i == 10 then 15 else if i == 11 then 14
    else if i == 12 then 10 else if i == 13 then 7 else if i == 14 then 6 else if i == 15 then 3 else 0
  }

  lemma MostSteps(i: nat, e: nat)
    requires i < e <= 16
    ensures Most(i + 1) <= Most(i)
    ensures (if e == i + 1 then NameLength(i) else NameLength(i) + 1 + NameLength(e - 1)) + 1 + Most(e + 1) <= Most(i)
  {
  }

  lemma {:induction false} LengthFrom(mask: set<nat>, i: nat)
    requires Fits(mask, 16) && i <= 16 && |REGISTERS| == 16
    ensures |Runs(REGISTERS, mask, i)| <= Most(i)
    decreases 16 - i
  {
    hide Most;
    RealNames();
    if i < 16 {
      if i !in mask {
        LengthFrom(mask, i + 1);
        MostSteps(i, i + 1);
      } else {
        var e := RunEnd(mask, i, 16);
        MostSteps(i, e);
        if e < 16 {
          LengthFrom(mask, e + 1);
        }
      }
    }
  }

  /** For the sixteen registers the text never has more than 36 characters. */
  lemma LengthBound(mask: set<nat>)
    requires Fits(mask, 16) && Runs(REGISTERS, mask, 0) != ""
    ensures |Printed(REGISTERS, mask)| <= 36
  {
    RealNames();
    LengthFrom(mask, 0);
  }
}
