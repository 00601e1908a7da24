/** What the host keeps of a response on the serial console (hboot.py). */
module Serial {
  import opened Words

  const CR: u8 := 13
  const LF: u8 := 10
  const CRLF: seq<u8> := [13, 10]
  const ECHO: seq<u8> := [107, 101, 121, 116, 101, 115, 116]   // keytest
  const PROMPT: seq<u8> := [104, 98, 111, 111, 116, 62]        // hboot>

  /** Where the first CRLF begins, or |data|. */
  function FindCrlf(data: seq<u8>): (k: nat)
    ensures k <= |data| && (k < |data| ==> k + 2 <= |data| && data[k] == CR && data[k + 1] == LF)
    ensures forall i :: 0 <= i < k && i + 1 < |data| ==> !(data[i] == CR && data[i + 1] == LF)
  {
    if |data| < 2 then |data|
    else if data[0] == CR && data[1] == LF then 0
    else 1 + FindCrlf(data[1..])
  }

  /** data.split(b'\\r\\n') */
  function Split(data: seq<u8>): (parts: seq<seq<u8>>)
    ensures |parts| >= 1
    decreases |data|
  {
    var k := FindCrlf(data);
    if k == |data| then [data] else [data[..k]] + Split(data[k + 2..])
  }

  /** b'\\r\\n'.join(parts) */
  function Join(parts: seq<seq<u8>>): seq<u8> {
    if parts == [] then []
    else if |parts| == 1 then parts[0]
    else parts[0] + CRLF + Join(parts[1..])
  }

  predicate StartsWith(data: seq<u8>, prefix: seq<u8>) {
    prefix <= data
  }

  predicate EndsWith(data: seq<u8>, suffix: seq<u8>) {
    |suffix| <= |data| && data[|data| - |suffix|..] == suffix
  }

  /** The stripping of HbootClient.hbootdbg outside fastboot mode: an echoed command line and a
      trailing prompt are dropped. The slice is empty when one part is both. */
  function Strip(data: seq<u8>): seq<u8> {
    var parts := Split(data);
    var first := if StartsWith(parts[0], ECHO) then 1 else 0;
    var last := if EndsWith(parts[|parts| - 1], PROMPT) then |parts| - 1 else |parts|;
    Join(if first <= last then parts[first..last] else [])
  }

  lemma {:induction false} JoinSplit(data: seq<u8>)
    ensures Join(Split(data)) == data
    decreases |data|
  {
    hide Split, Join, FindCrlf;
    var k := FindCrlf(data);
    SplitAt(data);
    if k < |data| {
      JoinSplit(data[k + 2..]);
      assert data == data[..k] + CRLF + data[k + 2..];
      JoinMore(data[..k], Split(data[k + 2..]));
    } else {
      JoinOne(data);
    }
  }

  lemma JoinOne(part: seq<u8>)
    ensures Join([part]) == part
  {
  }

  lemma JoinMore(part: seq<u8>, rest: seq<seq<u8>>)
    requires rest != []
    ensures Join([part] + rest) == part + CRLF + Join(rest)
  {
    assert ([part] + rest)[1..] == rest;
  }

  lemma {:induction false} FirstCrlf(data: seq<u8>, k: nat)
    requires k + 2 <= |data| && data[k] == CR && data[k + 1] == LF
    requires forall i :: 0 <= i < k ==> !(data[i] == CR && data[i + 1] == LF)
    ensures FindCrlf(data) == k
  {
  }

  lemma OneLineSplit(data: seq<u8>)
    requires OneLine(data)
    ensures Split(data) == [data]
  {
  }

  lemma SplitAt(data: seq<u8>)
    ensures var k := FindCrlf(data);
            Split(data) == if k == |data| then [data] else [data[..k]] + Split(data[k + 2..])
  {
  }

  /** Splitting goes through a CRLF wherever it stands, even after a lone CR or before a lone LF. */
  lemma {:induction false} SplitAppend(a: seq<u8>, b: seq<u8>)
    ensures Split(a + CRLF + b) == Split(a) + Split(b)
    decreases |a|
  {
    hide Split, FindCrlf;
    var whole := a + CRLF + b;
    var k := FindCrlf(a);
    SplitAt(a);
    SplitAt(whole);
    if k == |a| {
      forall i | 0 <= i < k ensures !(whole[i] == CR && whole[i + 1] == LF) {
      }
      FirstCrlf(whole, k);
      assert whole[..k] == a && whole[k + 2..] == b;
    } else {
      forall i | 0 <= i < k ensures !(whole[i] == CR && whole[i + 1] == LF) {
        assert whole[i] == a[i] && whole[i + 1] == a[i + 1];
      }
      FirstCrlf(whole, k);
      assert whole[..k] == a[..k] && whole[k + 2..] == a[k + 2..] + CRLF + b;
      SplitAppend(a[k + 2..], b);
    }
  }

  predicate OneLine(data: seq<u8>) {
    FindCrlf(data) == |data|
  }

  lemma {:induction false} JoinLast(parts: seq<seq<u8>>)
    requires parts != []
    ensures var init, x := parts[..|parts| - 1], parts[|parts| - 1];
            |Join(parts)| == |x| + if init == [] then 0 else |Join(init)| + 2
    decreases |parts|
  {
    if |parts| > 1 {
      JoinLast(parts[1..]);
      assert parts[1..][..|parts| - 2] == parts[..|parts| - 1][1..];
    }
  }

  /** An echoed command line, a payload and a prompt: exactly the payload is kept, whatever it is. */
  lemma {:induction false} StripFindsPayload(echo: seq<u8>, payload: seq<u8>, prompt: seq<u8>)
    requires OneLine(echo) && StartsWith(echo, ECHO) && OneLine(prompt) && EndsWith(prompt, PROMPT)
    ensures Strip(echo + CRLF + payload + CRLF + prompt) == payload
  {
    hide Split, Join, OneLine, StartsWith, EndsWith;
    var rest := payload + CRLF + prompt;
    assert echo + CRLF + payload + CRLF + prompt == echo + CRLF + rest;
    SplitAppend(echo, rest);
    SplitAppend(payload, prompt);
    OneLineSplit(echo);
    OneLineSplit(prompt);
    var parts := [echo] + (Split(payload) + [prompt]);
    assert parts[1..|parts| - 1] == Split(payload);
    JoinSplit(payload);
  }

  lemma {:induction false} JoinFirst(parts: seq<seq<u8>>)
    requires parts != []
    ensures |Join(parts)| == |parts[0]| + if |parts| == 1 then 0 else |Join(parts[1..])| + 2
  {
  }

  /** A raw response comes through unchanged iff nothing in it is taken for an echo or a prompt. */
  lemma {:induction false} StripRaw(data: seq<u8>)
    ensures var parts := Split(data);
            Strip(data) == data <==> !StartsWith(parts[0], ECHO) && !EndsWith(parts[|parts| - 1], PROMPT)
  {
    hide Split, Join;
    var parts := Split(data);
    var init := parts[..|parts| - 1];
    JoinSplit(data);
    JoinLast(parts);
    JoinFirst(parts);
    assert parts[0..|parts|] == parts && parts[0..|parts| - 1] == init && parts[1..|parts|] == parts[1..];
    if init != [] {
      JoinFirst(init);
      assert init[1..] == parts[1..|parts| - 1];
      if |init| == 1 { assert init[1..] == []; }
    } else {
      assert parts[1..] == [];
    }
    assert |ECHO| == 7 && |PROMPT| == 6;
    JoinEmpty();
  }

  lemma JoinEmpty()
    ensures Join([]) == []
  {
  }

  // ---- What is taken for an echo and for a prompt

  lemma Constants()
    ensures ECHO == Ascii("keytest") && PROMPT == Ascii("hboot>") && CRLF == Ascii("\r\n")
  {
  }

  /** The first line begins with the echo iff the response does. */
  lemma EchoFirst(data: seq<u8>)
    ensures StartsWith(Split(data)[0], ECHO) <==> Ascii("keytest") <= data
  {
    Constants();
    SplitAt(data);
    hide Split;
    var k := FindCrlf(data);
    if ECHO <= data && k < |data| {
      assert data[k] == CR;
      assert forall i :: 0 <= i < 7 ==> data[i] == ECHO[i] && ECHO[i] != CR;
      assert ECHO <= data[..k];
    }
  }

  /** What comes before the last part, with its separator. */
  lemma {:induction false} LastPart(parts: seq<seq<u8>>) returns (before: seq<u8>)
    requires parts != []
    ensures Join(parts) == before + parts[|parts| - 1]
    ensures before == [] || (|before| >= 2 && before[|before| - 1] == LF)
    ensures before == [] <==> |parts| == 1
  {
    hide Join;
    if |parts| == 1 {
      before := [];
      JoinOne(parts[0]);
      assert parts == [parts[0]];
    } else {
      var rest := LastPart(parts[1..]);
      before := parts[0] + CRLF + rest;
      JoinMore(parts[0], parts[1..]);
      assert parts == [parts[0]] + parts[1..];
      assert parts[0] + CRLF + (rest + parts[|parts| - 1]) == before + parts[|parts| - 1];
    }
  }

  /** The last line ends in the prompt iff the response does. */
  lemma PromptLast(data: seq<u8>)
    ensures var parts := Split(data); EndsWith(parts[|parts| - 1], PROMPT) <==> EndsWith(data, Ascii("hboot>"))
  {
    hide Split, Join;
    Constants();
    JoinSplit(data);
    var parts := Split(data);
    var before := LastPart(parts);
    EndsInLast(data, before, parts[|parts| - 1]);
  }

  lemma EndsInLast(data: seq<u8>, before: seq<u8>, last: seq<u8>)
    requires data == before + last && (before == [] || before[|before| - 1] == LF)
    ensures EndsWith(last, PROMPT) <==> EndsWith(data, PROMPT)
  {
    if |last| >= 6 {
      assert data[|data| - 6..] == last[|last| - 6..];
    } else if |data| >= 6 {
      var i := |before| - 1 - (|data| - 6);
      assert data[|data| - 6..][i] == LF && PROMPT[i] != LF;
    }
  }

  /** Of an echo and a payload that does not end in a prompt the payload is kept. */
  lemma {:induction false} StripEchoOnly(echo: seq<u8>, payload: seq<u8>)
    requires OneLine(echo) && Ascii("keytest") <= echo && !EndsWith(payload, Ascii("hboot>"))
    ensures Strip(echo + CRLF + payload) == payload
  {
    hide Split, Join, OneLine, StartsWith, EndsWith;
    EchoFirst(echo);
    PromptLast(payload);
    SplitAppend(echo, payload);
    OneLineSplit(echo);
    JoinSplit(payload);
    var parts := [echo] + Split(payload);
    assert parts[1..|parts|] == Split(payload);
  }

  /** Of a payload that does not begin with an echo and a prompt the payload is kept. */
  lemma {:induction false} StripPromptOnly(payload: seq<u8>, prompt: seq<u8>)
    requires OneLine(prompt) && EndsWith(prompt, Ascii("hboot>")) && !(Ascii("keytest") <= payload)
    ensures Strip(payload + CRLF + prompt) == payload
  {
    hide Split, Join, OneLine, StartsWith, EndsWith;
    EchoFirst(payload);
    PromptLast(prompt);
    SplitAppend(payload, prompt);
    OneLineSplit(prompt);
    JoinSplit(payload);
    var parts := Split(payload) + [prompt];
    assert parts[0..|parts| - 1] == Split(payload);
  }

  /** A single line is dropped if it begins with the echo or ends in the prompt. */
  lemma {:induction false} StripOneLine(data: seq<u8>)
    requires OneLine(data)
    ensures Strip(data) == if Ascii("keytest") <= data || EndsWith(data, Ascii("hboot>")) then [] else data
  {
    hide Split, Join, OneLine, StartsWith, EndsWith;
    EchoFirst(data);
    PromptLast(data);
    OneLineSplit(data);
    JoinOne(data);
    JoinEmpty();
    assert [data][0..1] == [data] && [data][1..1] == [] && [data][0..0] == [];
  }
}
