/** ASCII text helpers: the parts of Python's `str` methods the modelled code uses. */
module Text {
  import opened Prelude

  predicate IsSpace(c: char) {
    9 <= c as int <= 13 || 28 <= c as int <= 32
  }

  predicate IsDigit(c: char) {
    '0' <= c <= '9'
  }

  function LowerChar(c: char): char {
    if 'A' <= c <= 'Z' then (c as int + 32) as char else c
  }

  function Lower(s: string): string {
    seq(|s|, i requires 0 <= i < |s| => LowerChar(s[i]))
  }

  function StripLeft(s: string): string {
    if s != "" && IsSpace(s[0]) then StripLeft(s[1..]) else s
  }

  function StripRight(s: string): string {
    if s != "" && IsSpace(s[|s| - 1]) then StripRight(s[..|s| - 1]) else s
  }

  function Strip(s: string): string {
    StripRight(StripLeft(s))
  }

  lemma {:induction false} StripRightIsPrefix(s: string)
    ensures StripRight(s) <= s
    ensures StripRight(s) == "" || !IsSpace(StripRight(s)[|StripRight(s)| - 1])
  {
    if s != "" && IsSpace(s[|s| - 1]) { StripRightIsPrefix(s[..|s| - 1]); }
  }

  lemma {:induction false} StripLeftStart(s: string)
    ensures StripLeft(s) == "" || !IsSpace(StripLeft(s)[0])
  {
    if s != "" && IsSpace(s[0]) { StripLeftStart(s[1..]); }
  }

  /** Stripped text neither starts nor ends with white space. */
  lemma StrippedEnds(s: string)
    ensures Strip(s) == "" || (!IsSpace(Strip(s)[0]) && !IsSpace(Strip(s)[|Strip(s)| - 1]))
  {
    StripLeftStart(s);
    StripRightIsPrefix(StripLeft(s));
  }

  /** ASCII white space as Python's `str.strip` takes it. */
  lemma SpacesAre(c: char)
    ensures IsSpace(c) <==> c as int in {9, 10, 11, 12, 13, 28, 29, 30, 31, 32}
  {
  }

  predicate Blank(s: string) {
    forall i :: 0 <= i < |s| ==> IsSpace(s[i])
  }

  /** Text without white space at either end. */
  predicate Tight(s: string) {
    s == "" || (!IsSpace(s[0]) && !IsSpace(s[|s| - 1]))
  }

  lemma {:induction false} StripRightOf(core: string, right: string)
    requires Tight(core) && Blank(right)
    ensures StripRight(core + right) == core
  {
    if right == "" {
      assert core + right == core;
    } else {
      assert (core + right)[..|core + right| - 1] == core + right[..|right| - 1];
      StripRightOf(core, right[..|right| - 1]);
    }
  }

  lemma {:induction false} StripLeftOf(left: string, rest: string)
    requires Blank(left)
    ensures StripLeft(left + rest) == StripLeft(rest)
  {
    if left == "" {
      assert left + rest == rest;
    } else {
      assert (left + rest)[1..] == left[1..] + rest;
      StripLeftOf(left[1..], rest);
    }
  }

  lemma {:induction false} StripLeftOfBlank(s: string)
    requires Blank(s)
    ensures StripLeft(s) == ""
  {
    if s == "" {
    } else {
      StripLeftOfBlank(s[1..]);
    }
  }

  /** Stripping takes off exactly the white space around a text. */
  lemma StripTakesOffTheOutside(left: string, core: string, right: string)
    requires Blank(left) && Tight(core) && Blank(right)
    ensures Strip(left + core + right) == core
  {
    assert left + core + right == left + (core + right);
    StripLeftOf(left, core + right);
    if core == "" {
      assert core + right == right;
      StripLeftOfBlank(right);
    } else {
      StripRightOf(core, right);
    }
  }

  /** Lower-casing changes the letters A to Z, by 32, and nothing else. */
  lemma LowerIs(s: string, i: nat)
    requires i < |s|
    ensures |Lower(s)| == |s|
    ensures Lower(s)[i] == (if 'A' <= s[i] <= 'Z' then s[i] - 'A' + 'a' else s[i])
  {
  }

  /** Position of the first `c`, or |s| if there is none. */
  function IndexOf(s: string, c: char): (i: nat)
    ensures i <= |s| && c !in s[..i] && (i < |s| ==> s[i] == c)
  {
    if s == "" || s[0] == c then 0 else 1 + IndexOf(s[1..], c)
  }

  /** Python's `partition`: what stands before and after the first `c`. */
  function Partition(s: string, c: char): (string, string) {
    var i := IndexOf(s, c);
    if i == |s| then (s, "") else (s[..i], s[i + 1..])
  }

  function SplitOn(s: string, c: char): (r: seq<string>)
    ensures r != [] && forall i :: 0 <= i < |r| ==> c !in r[i]
    decreases |s|
  {
    var i := IndexOf(s, c);
    if i == |s| then [s] else [s[..i]] + SplitOn(s[i + 1..], c)
  }

  function JoinWith(sep: string, parts: seq<string>): string {
    if parts == [] then ""
    else if |parts| == 1 then parts[0]
    else parts[0] + sep + JoinWith(sep, parts[1..])
  }

  /** Joining the pieces with the separator gives the text back. */
  lemma {:induction false} SplitJoins(s: string, c: char)
    ensures JoinWith([c], SplitOn(s, c)) == s
    decreases |s|
  {
    var i := IndexOf(s, c);
    if i < |s| {
      var tail := SplitOn(s[i + 1..], c);
      SplitJoins(s[i + 1..], c);
      JoinHead([c], s[..i], tail);
      assert SplitOn(s, c) == [s[..i]] + tail;
      assert s == s[..i] + [c] + s[i + 1..];
    }
  }

  lemma JoinHead(sep: string, head: string, tail: seq<string>)
    requires tail != []
    ensures JoinWith(sep, [head] + tail) == head + sep + JoinWith(sep, tail)
  {
    assert ([head] + tail)[1..] == tail;
  }

  lemma {:induction false} IndexOfHead(head: string, c: char, tail: string)
    requires c !in head
    ensures IndexOf(head + [c] + tail, c) == |head|
  {
    if head == "" {
      assert head + [c] + tail == [c] + tail;
    } else {
      IndexOfHead(head[1..], c, tail);
      assert (head + [c] + tail)[1..] == head[1..] + [c] + tail;
    }
  }

  lemma {:induction false} SplitOfJoined(parts: seq<string>, c: char)
    requires parts != [] && forall i :: 0 <= i < |parts| ==> c !in parts[i]
    ensures SplitOn(JoinWith([c], parts), c) == parts
  {
    if |parts| <= 1 {
    } else {
      var tail := JoinWith([c], parts[1..]);
      var text := parts[0] + [c] + tail;
      IndexOfHead(parts[0], c, tail);
      assert text[..|parts[0]|] == parts[0] && text[|parts[0]| + 1..] == tail;
      SplitOfJoined(parts[1..], c);
    }
  }

  /** Python's `lstrip("-")`. */
  function SkipDashes(s: string): string {
    if s != "" && s[0] == '-' then SkipDashes(s[1..]) else s
  }

  // ---------- Decimal numbers ----------

  predicate AllDigits(s: string) {
    s != "" && forall c :: c in s ==> IsDigit(c)
  }

  function DigitChar(d: nat): char
    requires d < 10
  {
    ('0' as int + d) as char
  }

  function Decimal(n: nat): (s: string)
    ensures AllDigits(s)
  {
    if n < 10 then [DigitChar(n)] else Decimal(n / 10) + [DigitChar(n % 10)]
  }

  function ParseNat(s: string): nat
    requires AllDigits(s)
  {
    var last := s[|s| - 1];
    assert last in s;
    var d := last as int - '0' as int;
    if |s| == 1 then d
    else
      assert AllDigits(s[..|s| - 1]);
      10 * ParseNat(s[..|s| - 1]) + d
  }

  lemma {:induction false} DecimalReadsBack(n: nat)
    ensures ParseNat(Decimal(n)) == n
  {
    if n < 10 {
    } else {
      DecimalReadsBack(n / 10);
      assert Decimal(n)[..|Decimal(n)| - 1] == Decimal(n / 10);
    }
  }
}
