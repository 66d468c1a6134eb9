/**
 The local encrypted secret file (zdrovena/common/_local_secret_fallback.py) as a lens on one key at a
 time. Decryption and encryption are opaque: the file is modelled by the plaintext it decrypts to.
 Keys are environment-variable names.
 */
module LocalSecretFallback {
  import opened Prelude
  import opened DotenvText

  function Prefix(key: string): string { key + "=" }

  predicate Starts(line: string, key: string) { Prefix(key) <= line }

  /** The first line for the key decides, even if later ones repeat it; a blank value reads as missing. */
  function ReadKey(lines: seq<string>, key: string): Option<string> {
    if lines == [] then None
    else if Starts(lines[0], key) then
      var value := Strip(lines[0][|Prefix(key)|..]);
      if value == "" then None else Some(value)
    else ReadKey(lines[1..], key)
  }

  function NonEmpty(lines: seq<string>): seq<string> {
    if lines == [] then [] else if lines[0] == "" then NonEmpty(lines[1..]) else [lines[0]] + NonEmpty(lines[1..])
  }

  /** Replace the first line for the key, or append one. */
  function WriteKey(lines: seq<string>, key: string, value: string): seq<string> {
    if lines == [] then [Prefix(key) + value]
    else if Starts(lines[0], key) then [Prefix(key) + value] + lines[1..]
    else [lines[0]] + WriteKey(lines[1..], key, value)
  }

  function ReadText(text: string, key: string): Option<string> { ReadKey(SplitLines(text), key) }

  function WriteText(text: string, key: string, value: string): string {
    Joined(WriteKey(NonEmpty(SplitLines(text)), key, value))
  }

  class SecretFile {
    var available: bool            // sops and the age key are installed
    var readable: bool             // the existing file decrypts
    var plaintext: Option<string>  // None: no file yet

    method ReadLocalFallback(key: string) returns (value: Option<string>)
      ensures value == if available && readable && plaintext.Some? then ReadText(plaintext.value, key) else None
    {
      if !available || plaintext.None? || !readable {
        return None;
      }
      var lines := SplitLines(plaintext.value);
      for i := 0 to |lines|
        invariant ReadKey(lines, key) == ReadKey(lines[i..], key)
      {
        if Starts(lines[i], key) {
          var found := Strip(lines[i][|Prefix(key)|..]);
          return if found == "" then None else Some(found);
        }
      }
      value := None;
    }

    /** The scan: overwrite the first line for the key and stop, or append. */
    static method SetLine(before: seq<string>, key: string, value: string) returns (lines: seq<string>)
      ensures lines == WriteKey(before, key, value)
    {
      lines := before;
      for i := 0 to |lines|
        invariant lines == before && WriteKey(before, key, value) == before[..i] + WriteKey(before[i..], key, value)
      {
        if Starts(lines[i], key) {
          return lines[i := Prefix(key) + value];
        }
      }
      assert before[..|before|] == before && before[|before|..] == [];
      lines := lines + [Prefix(key) + value];
    }

    /** Refuses when the tooling is missing, when an existing file cannot be decrypted, and when the
        encryption fails; in all three cases the file is untouched. */
    method WriteLocalFallback(key: string, value: string, encrypts: bool) returns (ok: bool)
      modifies this`plaintext
      ensures ok <==> available && (old(plaintext).Some? ==> readable) && encrypts
      ensures plaintext ==
              if ok then Some(WriteText(if old(plaintext).Some? then old(plaintext).value else "", key, value))
              else old(plaintext)
    {
      if !available {
        return false;
      }
      var lines: seq<string> := [];
      if plaintext.Some? {
        if !readable {
          return false;
        }
        lines := NonEmpty(SplitLines(plaintext.value));
      }
      lines := SetLine(lines, key, value);
      if !encrypts {
        return false;
      }
      plaintext := Some(Joined(lines));
      ok := true;
    }
  }

  // ---- Lens laws -----------------------------------------------------------------------------------

  lemma {:induction false} ReadIgnoresEmptyLines(lines: seq<string>, key: string)
    ensures ReadKey(NonEmpty(lines), key) == ReadKey(lines, key)
  {
    if lines == [] {
    } else {
      ReadIgnoresEmptyLines(lines[1..], key);
      assert ([lines[0]] + NonEmpty(lines[1..]))[1..] == NonEmpty(lines[1..]);
    }
  }

  lemma {:induction false} WriteKeepsLines(lines: seq<string>, key: string, value: string)
    requires AllOneLine(lines) && OneLine(Prefix(key) + value)
    ensures AllOneLine(WriteKey(lines, key, value)) && AllOneLine(NonEmpty(lines))
    ensures NonEmpty(NonEmpty(lines)) == NonEmpty(lines)
    ensures NonEmpty(WriteKey(NonEmpty(lines), key, value)) == WriteKey(NonEmpty(lines), key, value)
  {
    var line := Prefix(key) + value;
    if lines != [] {
      WriteKeepsLines(lines[1..], key, value);
      var rest := NonEmpty(lines[1..]);
      assert ([lines[0]] + rest)[1..] == rest;
      assert ([lines[0]] + WriteKey(rest, key, value))[1..] == WriteKey(rest, key, value);
      assert ([line] + rest)[1..] == rest;
    } else {
      assert [line][1..] == [] && NonEmpty([line]) == [line] + NonEmpty([]);
    }
  }

  lemma StartsAtCut(line: string, key: string)
    requires '=' !in key && Starts(line, key)
    ensures Cut(line) == |key| && line[..|key|] == key
  {
    assert line == key + "=" + line[|key| + 1..];
    CutAtFirst(key, line[|key| + 1..]);
  }

  /** Different keys never claim the same line. */
  lemma KeysDoNotOverlap(line: string, key: string, other: string)
    requires '=' !in key && '=' !in other && key != other
    ensures !(Starts(line, key) && Starts(line, other))
  {
    if Starts(line, key) { StartsAtCut(line, key); }
    if Starts(line, other) { StartsAtCut(line, other); }
  }

  lemma {:induction false} ReadWritten(lines: seq<string>, key: string, value: string, other: string)
    requires '=' !in key && '=' !in other
    ensures ReadKey(WriteKey(lines, key, value), other) ==
            if other != key then ReadKey(lines, other)
            else if Strip(value) == "" then None else Some(Strip(value))
  {
    var line := Prefix(key) + value;
    assert line[|Prefix(key)|..] == value && Starts(line, key);
    if other != key { KeysDoNotOverlap(line, key, other); }
    if lines == [] {
    } else {
      assert ([line] + lines[1..])[1..] == lines[1..];
      if Starts(lines[0], key) {
        if other != key { KeysDoNotOverlap(lines[0], key, other); }
      } else {
        ReadWritten(lines[1..], key, value, other);
        assert ([lines[0]] + WriteKey(lines[1..], key, value))[1..] == WriteKey(lines[1..], key, value);
      }
    }
  }

  lemma {:induction false} WriteTwice(lines: seq<string>, key: string, first: string, second: string)
    ensures WriteKey(WriteKey(lines, key, first), key, second) == WriteKey(lines, key, second)
  {
    if lines != [] && !Starts(lines[0], key) {
      WriteTwice(lines[1..], key, first, second);
      assert ([lines[0]] + WriteKey(lines[1..], key, first))[1..] == WriteKey(lines[1..], key, first);
    } else if lines != [] {
      assert ([Prefix(key) + first] + lines[1..])[1..] == lines[1..];
    }
  }

  lemma WrittenLines(text: string, key: string, value: string)
    requires OneLine(Prefix(key) + value)
    ensures SplitLines(WriteText(text, key, value)) == WriteKey(NonEmpty(SplitLines(text)), key, value)
    ensures NonEmpty(SplitLines(WriteText(text, key, value))) == WriteKey(NonEmpty(SplitLines(text)), key, value)
  {
    SplitGivesLines(text);
    WriteKeepsLines(SplitLines(text), key, value);
    WriteKeepsLines(NonEmpty(SplitLines(text)), key, value);
    SplitJoined(WriteKey(NonEmpty(SplitLines(text)), key, value));
  }

  /** Main result, on whole files with any content, duplicate lines included: a newline-free value written
      under a key reads back stripped, or as missing when blank; every other key reads as before. */
  lemma WriteThenRead(text: string, key: string, value: string, other: string)
    requires '=' !in key && '=' !in other && OneLine(Prefix(key) + value)
    ensures ReadText(WriteText(text, key, value), other) ==
            if other != key then ReadText(text, other)
            else if Strip(value) == "" then None else Some(Strip(value))
  {
    WrittenLines(text, key, value);
    ReadWritten(NonEmpty(SplitLines(text)), key, value, other);
    ReadIgnoresEmptyLines(SplitLines(text), other);
  }

  /** Line `i` is the first one for the key. */
  predicate IsFirst(lines: seq<string>, key: string, i: nat) {
    i < |lines| && Starts(lines[i], key) && forall j :: 0 <= j < i ==> !Starts(lines[j], key)
  }

  /** The first line for the key decides what is read, whatever follows it: its value, or nothing when that
      is blank; and without a line for the key nothing is read. */
  lemma {:induction false} FirstLineDecides(lines: seq<string>, key: string)
    ensures forall i: nat :: IsFirst(lines, key, i) ==>
              ReadKey(lines, key) ==
              var value := Strip(lines[i][|key| + 1..]); if value == "" then None else Some(value)
    ensures (forall i :: 0 <= i < |lines| ==> !Starts(lines[i], key)) ==> ReadKey(lines, key) == None
  {
    if lines == [] || Starts(lines[0], key) {
    } else {
      FirstLineDecides(lines[1..], key);
      forall i: nat | IsFirst(lines, key, i)
        ensures ReadKey(lines, key) ==
                var value := Strip(lines[i][|key| + 1..]); if value == "" then None else Some(value)
      {
        forall j | 0 <= j < i - 1 ensures !Starts(lines[1..][j], key) { assert lines[1..][j] == lines[j + 1]; }
        assert IsFirst(lines[1..], key, i - 1) && lines[1..][i - 1] == lines[i];
      }
      assert forall i :: 0 <= i < |lines[1..]| ==> lines[1..][i] == lines[i + 1];
    }
  }

  /** A write changes one line - the first for the key - or adds one at the end, and leaves every other line
      as it stands. */
  lemma {:induction false} WriteTouchesOneLine(lines: seq<string>, key: string, value: string) returns (i: nat)
    ensures i <= |lines| && (forall j :: 0 <= j < i ==> !Starts(lines[j], key))
    ensures i < |lines| ==> Starts(lines[i], key)
    ensures WriteKey(lines, key, value) ==
            lines[..i] + [key + "=" + value] + if i < |lines| then lines[i + 1..] else []
  {
    if lines == [] || Starts(lines[0], key) {
      i := 0;
    } else {
      i := WriteTouchesOneLine(lines[1..], key, value);
      i := i + 1;
      forall j | 0 <= j < i ensures !Starts(lines[j], key) { if j > 0 { assert lines[j] == lines[1..][j - 1]; } }
      assert lines[..i] == [lines[0]] + lines[1..][..i - 1];
    }
  }

  /** Of the lines read back before a write only the empty ones are dropped. */
  lemma {:induction false} OnlyEmptyLinesGo(a: seq<string>, line: string, b: seq<string>)
    ensures NonEmpty(a + [line] + b) == NonEmpty(a) + (if line == "" then [] else [line]) + NonEmpty(b)
  {
    if a == [] {
      assert a + [line] + b == [line] + b && ([line] + b)[1..] == b;
    } else {
      assert (a + [line] + b)[1..] == a[1..] + [line] + b;
      OnlyEmptyLinesGo(a[1..], line, b);
    }
  }

  /** The last write wins: the file is the one the second write alone would have left. */
  lemma LastWriteWins(text: string, key: string, first: string, second: string)
    requires OneLine(Prefix(key) + first)
    ensures WriteText(WriteText(text, key, first), key, second) == WriteText(text, key, second)
  {
    WrittenLines(text, key, first);
    WriteTwice(NonEmpty(SplitLines(text)), key, first, second);
  }

  /** The newline-free condition is needed: of a value with a line break in it, the part behind the break
      is a line of its own, and may be read under another key. */
  lemma NewlineFreeIsNeeded(key: string, first: string, other: string, second: string)
    requires '=' !in key && '=' !in other && key != other && Strip(second) != ""
    requires OneLine(Prefix(key) + first) && OneLine(Prefix(other) + second)
    ensures ReadText("", other) == None
    ensures ReadText(WriteText("", key, first + "\n" + (Prefix(other) + second)), other) == Some(Strip(second))
  {
    var a, b := Prefix(key) + first, Prefix(other) + second;
    var value := first + "\n" + b;
    assert Prefix(key) + value == a + "\n" + b;
    assert SplitLines("") == [] && NonEmpty([]) == [];
    assert WriteKey([], key, value) == [a + "\n" + b];
    OneOrTwoLines(a, b);
    SplitJoined([a, b]);
    assert Starts(a, key) && Starts(b, other) && b[|Prefix(other)|..] == second;
    KeysDoNotOverlap(a, key, other);
    assert [a, b][1..] == [b];
    assert WriteText("", key, value) == Joined([a, b]);
    forall i | 0 <= i < 2 ensures OneLine([a, b][i]) {}
    assert ReadKey([a, b], other) == ReadKey([b], other) == Some(Strip(second));
  }

  lemma OneOrTwoLines(a: string, b: string)
    ensures Joined([a + "\n" + b]) == Joined([a, b])
  {
    assert [a, b][1..] == [b] && [b][1..] == [] && [a + "\n" + b][1..] == [];
    assert Joined([b]) == b + "\n" + "";
  }
}
