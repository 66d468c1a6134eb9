/** The three string operations the dotenv code rests on, as Python defines them: strip, splitlines and
    joining lines with a final newline. */
module DotenvText {
  /** str.isspace */
  predicate IsSpace(c: char) {
    var n := c as int;
    9 <= n <= 13 || 28 <= n <= 32 || n == 0x85 || n == 0xA0 || n == 0x1680 || 0x2000 <= n <= 0x200A
    || n == 0x2028 || n == 0x2029 || n == 0x202F || n == 0x205F || n == 0x3000
  }

  /** The line boundaries of str.splitlines; "\r\n" counts as one. */
  predicate IsBreak(c: char) {
    var n := c as int;
    10 <= n <= 13 || 28 <= n <= 30 || n == 0x85 || n == 0x2028 || n == 0x2029
  }

  /** Both tables, code point by code point. */
  lemma CharacterTables(c: char)
    ensures IsSpace(c) <==> c as int in {
              9, 10, 11, 12, 13, 28, 29, 30, 31, 32, 0x85, 0xA0, 0x1680, 0x2000, 0x2001, 0x2002, 0x2003, 0x2004,
              0x2005, 0x2006, 0x2007, 0x2008, 0x2009, 0x200A, 0x2028, 0x2029, 0x202F, 0x205F, 0x3000}
    ensures IsBreak(c) <==> c as int in {10, 11, 12, 13, 28, 29, 30, 0x85, 0x2028, 0x2029}
  {
  }

  predicate OneLine(s: string) { forall i :: 0 <= i < |s| ==> !IsBreak(s[i]) }

  predicate AllOneLine(lines: seq<string>) { forall i :: 0 <= i < |lines| ==> OneLine(lines[i]) }

  // ---- strip -------------------------------------------------------------------------------------

  function LStrip(s: string): string {
    if s != "" && IsSpace(s[0]) then LStrip(s[1..]) else s
  }

  function RStrip(s: string): string {
    if s != "" && IsSpace(s[|s| - 1]) then RStrip(s[..|s| - 1]) else s
  }

  function Strip(s: string): string { RStrip(LStrip(s)) }

  /** The ends of a stripped text are not whitespace. */
  predicate Trim(s: string) { s != "" ==> !IsSpace(s[0]) && !IsSpace(s[|s| - 1]) }

  lemma {:induction false} RStripEnd(s: string)
    ensures RStrip(s) <= s && (RStrip(s) != "" ==> !IsSpace(RStrip(s)[|RStrip(s)| - 1]))
    ensures OneLine(s) ==> OneLine(RStrip(s))
  {
    if s != "" && IsSpace(s[|s| - 1]) { RStripEnd(s[..|s| - 1]); }
  }

  lemma {:induction false} LStripEnd(s: string)
    ensures LStrip(s) != "" ==> !IsSpace(LStrip(s)[0])
    ensures OneLine(s) ==> OneLine(LStrip(s))
    ensures forall c :: c in LStrip(s) ==> c in s
  {
    if s != "" && IsSpace(s[0]) { LStripEnd(s[1..]); }
  }

  lemma StripTrims(s: string)
    ensures Trim(Strip(s))
    ensures OneLine(s) ==> OneLine(Strip(s))
    ensures forall c :: c in Strip(s) ==> c in s
    ensures Trim(s) ==> Strip(s) == s
  {
    LStripEnd(s);
    RStripEnd(LStrip(s));
    var t := Strip(s);
    forall c | c in t ensures c in s {
      var i :| 0 <= i < |t| && t[i] == c;
      assert LStrip(s)[i] == c;
    }
  }

  predicate AllSpace(s: string) { forall i :: 0 <= i < |s| ==> IsSpace(s[i]) }

  /** Stripping takes whitespace off both ends and nothing else. */
  lemma StripSplits(s: string) returns (a: string, b: string)
    ensures s == a + Strip(s) + b && AllSpace(a) && AllSpace(b)
  {
    a := LStripTakes(s);
    b := RStripTakes(LStrip(s));
  }

  lemma {:induction false} LStripTakes(s: string) returns (a: string)
    ensures s == a + LStrip(s) && AllSpace(a)
  {
    if s != "" && IsSpace(s[0]) {
      a := LStripTakes(s[1..]);
      a := [s[0]] + a;
    } else {
      a := "";
    }
  }

  lemma {:induction false} RStripTakes(s: string) returns (b: string)
    ensures s == RStrip(s) + b && AllSpace(b)
  {
    if s != "" && IsSpace(s[|s| - 1]) {
      b := RStripTakes(s[..|s| - 1]);
      b := b + [s[|s| - 1]];
    } else {
      b := "";
    }
  }

  lemma {:induction false} RStripAfter(a: string, b: string)
    requires a != "" && !IsSpace(a[|a| - 1])
    ensures RStrip(a + b) == a + RStrip(b)
    decreases |b|
  {
    if b == "" {
      assert a + b == a;
    } else {
      assert (a + b)[|a + b| - 1] == b[|b| - 1];
      if IsSpace(b[|b| - 1]) {
        assert (a + b)[..|a + b| - 1] == a + b[..|b| - 1];
        RStripAfter(a, b[..|b| - 1]);
      }
    }
  }

  lemma {:induction false} RStripIdempotent(s: string)
    ensures RStrip(RStrip(s)) == RStrip(s)
  {
    RStripEnd(s);
  }

  /** Trimming the end first does not change what strip gives. */
  lemma {:induction false} StripOfRStrip(s: string)
    ensures Strip(RStrip(s)) == Strip(s)
    decreases |s|
  {
    RStripEnd(s);
    if s == "" {
    } else if !IsSpace(s[0]) {
      assert s == [s[0]] + s[1..];
      RStripAfter([s[0]], s[1..]);
      RStripIdempotent(s);
    } else {
      StripOfRStrip(s[1..]);
      RStripTail(s);
    }
  }

  lemma {:induction false} RStripTail(s: string)
    requires s != "" && IsSpace(s[0])
    ensures Strip(RStrip(s)) == Strip(RStrip(s[1..]))
    decreases |s|
  {
    if IsSpace(s[|s| - 1]) {
      var t := s[..|s| - 1];
      if t == "" {
        assert s[1..] == "" && RStrip(s) == RStrip(t) == "";
      } else {
        RStripTail(t);
        assert t[1..] == s[1..][..|s[1..]| - 1] && s[1..][|s[1..]| - 1] == s[|s| - 1];
      }
    } else {
      assert s[1..] != "" && s[1..][|s[1..]| - 1] == s[|s| - 1];
      assert RStrip(s) == s && RStrip(s[1..]) == s[1..];
    }
  }

  // ---- splitlines --------------------------------------------------------------------------------

  /** Index of the first line boundary, or the length. */
  function BreakAt(s: string): (k: nat)
    ensures k <= |s|
  {
    if s == "" || IsBreak(s[0]) then 0 else 1 + BreakAt(s[1..])
  }

  lemma {:induction false} BreakAtIsFirst(s: string)
    ensures OneLine(s[..BreakAt(s)]) && (BreakAt(s) < |s| ==> IsBreak(s[BreakAt(s)]))
  {
    if s != "" && !IsBreak(s[0]) {
      BreakAtIsFirst(s[1..]);
      forall i | 0 <= i < BreakAt(s) ensures !IsBreak(s[..BreakAt(s)][i]) {
        if i > 0 { assert s[..BreakAt(s)][i] == s[1..][..BreakAt(s[1..])][i - 1]; }
      }
    }
  }

  function AfterBreak(s: string, k: nat): (n: nat)
    requires k < |s|
    ensures k < n <= |s|
  {
    if s[k] == '\r' && k + 1 < |s| && s[k + 1] == '\n' then k + 2 else k + 1
  }

  function SplitLines(s: string): seq<string>
    decreases |s|
  {
    if s == "" then []
    else
      var k := BreakAt(s);
      if k == |s| then [s] else [s[..k]] + SplitLines(s[AfterBreak(s, k)..])
  }

  lemma {:induction false} SplitGivesLines(s: string)
    ensures AllOneLine(SplitLines(s))
    decreases |s|
  {
    if s == "" {
    } else {
      var k := BreakAt(s);
      BreakAtIsFirst(s);
      if k == |s| { assert s[..k] == s; } else { SplitGivesLines(s[AfterBreak(s, k)..]); }
    }
  }

  /** "\n".join(lines) + "\n" for a non-empty list, "" for an empty one. */
  function Joined(lines: seq<string>): string {
    if lines == [] then "" else lines[0] + "\n" + Joined(lines[1..])
  }

  lemma {:induction false} BreakAtFirst(line: string, rest: string)
    requires OneLine(line) && rest != "" && IsBreak(rest[0])
    ensures BreakAt(line + rest) == |line|
  {
    var s := line + rest;
    if line == "" {
      assert s == rest;
    } else {
      assert s[1..] == line[1..] + rest;
      assert forall i :: 0 <= i < |line[1..]| ==> line[1..][i] == line[i + 1];
      BreakAtFirst(line[1..], rest);
    }
  }

  /** Newline-free lines survive being written and read back. */
  lemma {:induction false} SplitJoined(lines: seq<string>)
    requires AllOneLine(lines)
    ensures SplitLines(Joined(lines)) == lines
  {
    if lines == [] {
    } else {
      var rest := "\n" + Joined(lines[1..]);
      var s := lines[0] + rest;
      assert Joined(lines) == s;
      BreakAtFirst(lines[0], rest);
      assert s[|lines[0]|] == '\n';
      assert s[..|lines[0]|] == lines[0] && s[|lines[0]| + 1..] == Joined(lines[1..]);
      SplitJoined(lines[1..]);
    }
  }

  predicate EndsLine(s: string) { s == "" || s[|s| - 1] == '\n' }

  lemma EndedLineBreaks(a: string)
    requires a != "" && EndsLine(a)
    ensures BreakAt(a) < |a|
  {
    var k := BreakAt(a);
    BreakAtIsFirst(a);
    assert IsBreak(a[|a| - 1]);
    assert forall i :: 0 <= i < k ==> a[..k][i] == a[i];
  }

  /** The first line and the rest are the same with more text behind. */
  lemma SameFirstLine(a: string, b: string)
    requires a != "" && EndsLine(a)
    ensures BreakAt(a) < |a| && BreakAt(a + b) == BreakAt(a)
    ensures AfterBreak(a + b, BreakAt(a)) == AfterBreak(a, BreakAt(a))
  {
    EndedLineBreaks(a);
    BreakAtIsFirst(a);
    var k := BreakAt(a);
    assert a + b == a[..k] + (a[k..] + b);
    BreakAtFirst(a[..k], a[k..] + b);
    assert (a + b)[k] == a[k];
    if k + 1 < |a| { assert (a + b)[k + 1] == a[k + 1]; }
  }

  lemma SplitUnfolds(s: string, first: string, rest: string)
    requires s != "" && BreakAt(s) < |s|
    requires s[..BreakAt(s)] == first && s[AfterBreak(s, BreakAt(s))..] == rest
    ensures SplitLines(s) == [first] + SplitLines(rest)
  {
  }

  lemma SliceConcat(a: string, b: string, k: nat, n: nat)
    requires k <= n <= |a|
    ensures (a + b)[..k] == a[..k] && (a + b)[n..] == a[n..] + b
  {
  }

  lemma UnfoldBoth(a: string, b: string) returns (first: string, rest: string)
    requires a != "" && EndsLine(a)
    ensures |rest| < |a| && EndsLine(rest)
    ensures SplitLines(a) == [first] + SplitLines(rest)
    ensures SplitLines(a + b) == [first] + SplitLines(rest + b)
  {
    SameFirstLine(a, b);
    var k := BreakAt(a);
    var n := AfterBreak(a, k);
    first, rest := a[..k], a[n..];
    SliceConcat(a, b, k, n);
    SplitUnfolds(a, first, rest);
    SplitUnfolds(a + b, first, rest + b);
  }

  /** A text that ends its last line can be read piece by piece. */
  lemma {:induction false} SplitConcat(a: string, b: string)
    requires EndsLine(a)
    ensures SplitLines(a + b) == SplitLines(a) + SplitLines(b)
    decreases |a|
  {
    if a == "" {
      NothingBefore(b);
    } else {
      var first, rest := UnfoldBoth(a, b);
      SplitConcat(rest, b);
      Regroup(first, SplitLines(rest), SplitLines(b), SplitLines(a), SplitLines(a + b), SplitLines(rest + b));
    }
  }

  lemma Regroup(x: string, ys: seq<string>, zs: seq<string>, xys: seq<string>, all: seq<string>, yzs: seq<string>)
    requires xys == [x] + ys && all == [x] + yzs && yzs == ys + zs
    ensures all == xys + zs
  {
  }

  lemma NothingBefore(b: string)
    ensures SplitLines("" + b) == SplitLines("") + SplitLines(b)
  {
    assert "" + b == b;
  }

  lemma LastLineWithoutBreak(s: string)
    requires s != "" && BreakAt(s) == |s|
    ensures SplitLines(s + "\n") == SplitLines(s)
  {
    BreakAtIsFirst(s);
    assert s[..|s|] == s;
    var t := s + "\n";
    BreakAtFirst(s, "\n");
    assert t[..|s|] == s && t[AfterBreak(t, |s|)..] == "";
    SplitUnfolds(t, s, "");
    assert SplitLines("") == [] && [s] + [] == [s];
  }

  /** The first line comes off both texts alike. */
  lemma FirstLineOff(s: string) returns (first: string, rest: string)
    requires BreakAt(s) + 1 < |s| && s[|s| - 1] != '\n'
    ensures 0 < |rest| < |s| && rest[|rest| - 1] != '\n'
    ensures SplitLines(s) == [first] + SplitLines(rest)
    ensures SplitLines(s + "\n") == [first] + SplitLines(rest + "\n")
  {
    var k := BreakAt(s);
    FirstLineOf(s, "\n");
    var n := AfterBreak(s, k);
    first, rest := s[..k], s[n..];
    SliceConcat(s, "\n", k, n);
    SplitUnfolds(s, first, rest);
    SplitUnfolds(s + "\n", first, rest + "\n");
    assert n < |s| && rest[|rest| - 1] == s[|s| - 1];
  }

  /** Ending the last line of a non-empty text adds at most an empty line. */
  lemma {:induction false} LastLineEnded(s: string)
    requires s != "" && s[|s| - 1] != '\n'
    ensures SplitLines(s + "\n") in [SplitLines(s), SplitLines(s) + [""]]
    decreases |s|
  {
    if BreakAt(s) == |s| {
      LastLineWithoutBreak(s);
    } else if BreakAt(s) + 1 == |s| {
      AtTheEnd(s);
    } else {
      var first, rest := FirstLineOff(s);
      LastLineEnded(rest);
      Prepend(first, SplitLines(rest));
    }
  }

  lemma Prepend(x: string, ys: seq<string>)
    ensures [x] + (ys + [""]) == ([x] + ys) + [""]
  {
  }

  lemma FirstLineOf(s: string, b: string)
    requires BreakAt(s) < |s|
    ensures BreakAt(s + b) == BreakAt(s)
    ensures BreakAt(s) + 1 < |s| ==> AfterBreak(s + b, BreakAt(s)) == AfterBreak(s, BreakAt(s))
  {
    BreakAtIsFirst(s);
    var k := BreakAt(s);
    assert s + b == s[..k] + (s[k..] + b);
    BreakAtFirst(s[..k], s[k..] + b);
  }

  lemma AtTheEnd(s: string)
    requires BreakAt(s) + 1 == |s| && s[|s| - 1] != '\n'
    ensures SplitLines(s + "\n") in [SplitLines(s), SplitLines(s) + [""]]
  {
    var k := BreakAt(s);
    var t := s + "\n";
    FirstLineOf(s, "\n");
    assert t[k] == s[k] && t[k + 1] == '\n';
    var n := AfterBreak(t, k);
    var rest := if s[k] == '\r' then "" else "\n";
    assert t[n..] == rest && t[..k] == s[..k];
    EndUnfolds(s, t, rest);
  }

  lemma EndUnfolds(s: string, t: string, rest: string)
    requires BreakAt(s) + 1 == |s| && BreakAt(t) == BreakAt(s) < |t| && t[..BreakAt(t)] == s[..BreakAt(s)]
    requires t[AfterBreak(t, BreakAt(t))..] == rest && rest in ["", "\n"]
    ensures SplitLines(t) in [SplitLines(s), SplitLines(s) + [""]]
  {
    var first := s[..BreakAt(s)];
    SplitUnfolds(s, first, "");
    SplitUnfolds(t, first, rest);
    SplitUnfolds("\n", "", "");
    assert SplitLines("") == [] && SplitLines("\n") == [""];
    assert SplitLines(s) == [first];
  }

  // ---- partition at the first '=' ------------------------------------------------------------------

  /** Position of the first '=', or the length. */
  function Cut(s: string): (n: nat)
    ensures n <= |s| && (n < |s| ==> s[n] == '=')
  {
    if s == "" || s[0] == '=' then 0 else 1 + Cut(s[1..])
  }

  lemma {:induction false} CutAtFirst(key: string, rest: string)
    requires '=' !in key
    ensures Cut(key + "=" + rest) == |key|
  {
    var s := key + "=" + rest;
    if key != "" {
      assert s[1..] == key[1..] + "=" + rest;
      CutAtFirst(key[1..], rest);
    } else {
      assert s[0] == '=';
    }
  }

  lemma {:induction false} CutFindsFirst(s: string)
    ensures '=' !in s[..Cut(s)]
  {
    if s != "" && s[0] != '=' {
      CutFindsFirst(s[1..]);
      assert s[..Cut(s)] == [s[0]] + s[1..][..Cut(s[1..])];
    }
  }
}
