/** The body of a single-line reply: what rpop3_session_recv_msg passes on after
    skipping the status marker, the status word and the whitespace after it. */
module Pop3Reply {

  /** g_ascii_isalpha */
  predicate IsAsciiAlpha(c: char) {
    'A' <= c <= 'Z' || 'a' <= c <= 'z'
  }

  /** g_ascii_isspace: space, tab, newline, vertical tab, form feed, carriage return */
  predicate IsAsciiSpace(c: char) {
    c == ' ' || '\t' <= c <= '\r'
  }

  predicate IsStatusMarker(c: char) {
    c == '+' || c == '-'
  }

  function SkipMarker(s: string): (r: string) {
    if |s| > 0 && IsStatusMarker(s[0]) then s[1..] else s
  }

  function SkipAlpha(s: string): (r: string) {
    if |s| > 0 && IsAsciiAlpha(s[0]) then SkipAlpha(s[1..]) else s
  }

  function SkipSpace(s: string): (r: string) {
    if |s| > 0 && IsAsciiSpace(s[0]) then SkipSpace(s[1..]) else s
  }

  /** The reply body: one optional marker, then every letter, then every blank skipped. */
  function Body(line: string): (b: string)
    ensures |b| <= |line| && b == line[|line| - |b|..]
    ensures b == [] || !IsAsciiSpace(b[0])
  {
    var a := SkipMarker(line);
    SkipAlphaShape(a);
    SkipSpaceShape(SkipAlpha(a));
    SkipSpace(SkipAlpha(a))
  }

  /** SkipAlpha drops exactly a maximal run of letters from the front. */
  lemma {:induction false} SkipAlphaShape(s: string)
    ensures |SkipAlpha(s)| <= |s| && SkipAlpha(s) == s[|s| - |SkipAlpha(s)|..]
    ensures forall i :: 0 <= i < |s| - |SkipAlpha(s)| ==> IsAsciiAlpha(s[i])
    ensures SkipAlpha(s) == [] || !IsAsciiAlpha(SkipAlpha(s)[0])
  {
    if |s| > 0 && IsAsciiAlpha(s[0]) {
      SkipAlphaShape(s[1..]);
      assert s[1..][|s[1..]| - |SkipAlpha(s[1..])|..] == s[|s| - |SkipAlpha(s)|..];
    }
  }

  /** SkipSpace drops exactly a maximal run of blanks from the front. */
  lemma {:induction false} SkipSpaceShape(s: string)
    ensures |SkipSpace(s)| <= |s| && SkipSpace(s) == s[|s| - |SkipSpace(s)|..]
    ensures forall i :: 0 <= i < |s| - |SkipSpace(s)| ==> IsAsciiSpace(s[i])
    ensures SkipSpace(s) == [] || !IsAsciiSpace(SkipSpace(s)[0])
  {
    if |s| > 0 && IsAsciiSpace(s[0]) {
      SkipSpaceShape(s[1..]);
      assert s[1..][|s[1..]| - |SkipSpace(s[1..])|..] == s[|s| - |SkipSpace(s)|..];
    }
  }

  /** Where the status word starts: after the marker, if there is one. */
  function WordStart(line: string): nat {
    if |line| > 0 && IsStatusMarker(line[0]) then 1 else 0
  }

  /** Where the status word ends. */
  function WordEnd(line: string): int {
    |line| - |SkipAlpha(SkipMarker(line))|
  }

  /** The body is a suffix of the line; what was skipped is one optional status
      marker, then letters only, then blanks only; neither run could be longer. */
  lemma BodyShape(line: string)
    ensures |Body(line)| <= |line| && Body(line) == line[|line| - |Body(line)|..]
    ensures WordStart(line) <= WordEnd(line) <= |line| - |Body(line)|
    ensures forall i :: WordStart(line) <= i < WordEnd(line) ==> IsAsciiAlpha(line[i])
    ensures WordEnd(line) == |line| || !IsAsciiAlpha(line[WordEnd(line)])
    ensures forall i :: WordEnd(line) <= i < |line| - |Body(line)| ==> IsAsciiSpace(line[i])
    ensures Body(line) == [] || !IsAsciiSpace(Body(line)[0])
  {
    var a := SkipMarker(line);
    var m := WordStart(line);
    var b := SkipAlpha(a);
    SkipAlphaShape(a);
    SkipSpaceShape(b);
    var w := WordEnd(line);
    assert a == line[m..];
    assert b == line[w..];
    forall i | m <= i < w ensures IsAsciiAlpha(line[i]) {
      assert line[i] == a[i - m];
    }
    forall i | w <= i < |line| - |Body(line)| ensures IsAsciiSpace(line[i]) {
      assert line[i] == b[i - w];
    }
    if w < |line| {
      assert line[w] == b[0];
    }
  }

  /** The pointer walk of rpop3_session_recv_msg: returns where the body starts. */
  method StripStatus(line: string) returns (start: nat)
    ensures start <= |line|
    ensures line[start..] == Body(line)
  {
    start := 0;
    if |line| > 0 && IsStatusMarker(line[0]) {
      start := 1;
    }
    assert line[start..] == SkipMarker(line);
    while start < |line| && IsAsciiAlpha(line[start])
      invariant start <= |line|
      invariant SkipAlpha(line[start..]) == SkipAlpha(SkipMarker(line))
    {
      assert line[start..][1..] == line[start + 1..];
      start := start + 1;
    }
    while start < |line| && IsAsciiSpace(line[start])
      invariant start <= |line|
      invariant SkipSpace(line[start..]) == Body(line)
    {
      assert line[start..][1..] == line[start + 1..];
      start := start + 1;
    }
  }

  /** The STAT reply of the example in RFC 1939 section 5. */
  lemma StatReplyBody()
    ensures Body("+OK 2 320") == "2 320"
  {
    assert SkipMarker("+OK 2 320") == "OK 2 320";
    assert SkipAlpha("OK 2 320") == " 2 320" by {
      assert "OK 2 320"[1..] == "K 2 320";
      assert "K 2 320"[1..] == " 2 320";
    }
    assert SkipSpace(" 2 320") == "2 320" by {
      assert " 2 320"[1..] == "2 320";
    }
  }
}
