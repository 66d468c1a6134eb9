/**
 The bulk dotenv operations of scripts/secrets_sync.py: parsing, merging updates in place, keeping
 rotating secrets out of the plaintext file, and the merge that encrypt performs. Lines are what
 splitlines gives; files are written back by joining lines.
 */
module SecretsSync {
  import opened Prelude
  import opened DotenvText

  /** The key and value of an active KEY=value line; None for blanks, comments and anything else. */
  function Active(line: string): Option<(string, string)> {
    var stripped := Strip(line);
    var n := Cut(stripped);
    if stripped == "" || stripped[0] == '#' || n == |stripped| then None
    else Some((Strip(stripped[..n]), Strip(stripped[n + 1..])))
  }

  type Env = map<string, string>

  function Put(env: Env, line: string): Env {
    match Active(line) case None => env case Some((k, v)) => env[k := v]
  }

  /** Later lines win. */
  function Parse(lines: seq<string>): Env {
    if lines == [] then map[] else Put(Parse(lines[..|lines| - 1]), lines[|lines| - 1])
  }

  method ParseEnvMap(lines: seq<string>) returns (env: Env)
    ensures env == Parse(lines)
  {
    env := map[];
    for i := 0 to |lines|
      invariant env == Parse(lines[..i])
    {
      assert lines[..i + 1][..i] == lines[..i];
      var stripped := Strip(lines[i]);
      var n := Cut(stripped);
      if stripped == "" || stripped[0] == '#' || n == |stripped| {
        continue;
      }
      env := env[Strip(stripped[..n]) := Strip(stripped[n + 1..])];
    }
    assert lines[..|lines|] == lines;
  }

  lemma {:induction false} ParseConcat(a: seq<string>, b: seq<string>)
    ensures Parse(a + b) == Parse(a) + Parse(b)
    decreases |b|
  {
    if b == [] {
      assert a + b == a;
    } else {
      assert (a + b)[..|a + b| - 1] == a + b[..|b| - 1] && (a + b)[|a + b| - 1] == b[|b| - 1];
      ParseConcat(a, b[..|b| - 1]);
    }
  }

  lemma ParseOne(line: string)
    ensures Parse([line]) == match Active(line) case None => map[] case Some((k, v)) => map[k := v]
  {
    assert [line][..0] == [];
  }

  lemma ParseFirst(lines: seq<string>)
    requires lines != []
    ensures Parse(lines) == Parse([lines[0]]) + Parse(lines[1..])
  {
    assert lines == [lines[0]] + lines[1..];
    ParseConcat([lines[0]], lines[1..]);
  }

  // ---- Lines the code writes -----------------------------------------------------------------------

  function Line(key: string, value: string): string { key + "=" + value }

  /** A variable name as it can stand in a line: trimmed, no '=', not a comment. */
  predicate IsKey(key: string) { Trim(key) && '=' !in key && (key != "" ==> key[0] != '#') }

  lemma WrittenLineParses(key: string, value: string)
    requires IsKey(key)
    ensures Active(Line(key, value)) == Some((key, Strip(value)))
  {
    var line := Line(key, value);
    assert line == (key + "=") + value;
    assert line != "" && !IsSpace(line[0]) && LStrip(line) == line;
    RStripAfter(key + "=", value);
    var stripped := Strip(line);
    assert stripped == key + "=" + RStrip(value);
    CutAtFirst(key, RStrip(value));
    assert stripped[..|key|] == key && stripped[|key| + 1..] == RStrip(value);
    StripTrims(key);
    StripOfRStrip(value);
  }

  /** What an active line yields can be written again as a line that yields the same. */
  lemma ActiveYieldsKey(line: string)
    requires Active(line).Some?
    ensures var (k, v) := Active(line).value;
            IsKey(k) && Strip(v) == v && (OneLine(line) ==> OneLine(k) && OneLine(v))
  {
    var stripped := Strip(line);
    var n := Cut(stripped);
    var left, right := stripped[..n], stripped[n + 1..];
    StripTrims(line);
    CutFindsFirst(stripped);
    StripTrims(left);
    StripTrims(right);
    StripTrims(Strip(right));
    if Strip(left) != "" {
      KeepsFirst(left);
      assert left != "" && left[0] == stripped[0];
    }
  }

  lemma KeepsFirst(s: string)
    requires Strip(s) != "" && (s != "" ==> !IsSpace(s[0]))
    ensures s != "" && Strip(s)[0] == s[0]
  {
    RStripEnd(LStrip(s));
  }

  // ---- apply_updates -------------------------------------------------------------------------------

  /** A dict in insertion order. */
  type Updates = seq<(string, string)>

  predicate Has(updates: Updates, key: string) {
    updates != [] && (updates[0].0 == key || Has(updates[1..], key))
  }

  function Value(updates: Updates, key: string): string
    requires Has(updates, key)
  {
    if updates[0].0 == key then updates[0].1 else Value(updates[1..], key)
  }

  function Pop(updates: Updates, key: string): Updates {
    if updates == [] then []
    else if updates[0].0 == key then updates[1..]
    else [updates[0]] + Pop(updates[1..], key)
  }

  ghost predicate DistinctKeys(updates: Updates) {
    updates == [] || (!Has(updates[1..], updates[0].0) && DistinctKeys(updates[1..]))
  }

  function Lines(updates: Updates): seq<string> {
    if updates == [] then [] else [Line(updates[0].0, updates[0].1)] + Lines(updates[1..])
  }

  /** An active line whose key is still to be updated. */
  predicate Hits(line: string, updates: Updates) { Active(line).Some? && Has(updates, Active(line).value.0) }

  function Applied(lines: seq<string>, updates: Updates): seq<string> {
    if lines == [] then Lines(updates)
    else if Hits(lines[0], updates) then
      var key := Active(lines[0]).value.0;
      [Line(key, Value(updates, key))] + Applied(lines[1..], Pop(updates, key))
    else [lines[0]] + Applied(lines[1..], updates)
  }

  /** One line further: what the loop has written, and what is left to write. */
  lemma AppliedStep(out: seq<string>, lines: seq<string>, updates: Updates)
    requires lines != []
    ensures out + Applied(lines, updates) ==
            if Hits(lines[0], updates) then
              var key := Active(lines[0]).value.0;
              (out + [Line(key, Value(updates, key))]) + Applied(lines[1..], Pop(updates, key))
            else (out + [lines[0]]) + Applied(lines[1..], updates)
  {
    if Hits(lines[0], updates) {
      var key := Active(lines[0]).value.0;
      MoveOver(out, Line(key, Value(updates, key)), Applied(lines[1..], Pop(updates, key)));
    } else {
      MoveOver(out, lines[0], Applied(lines[1..], updates));
    }
  }

  lemma MoveOver(out: seq<string>, line: string, rest: seq<string>)
    ensures out + ([line] + rest) == (out + [line]) + rest
  {
  }

  method ApplyUpdates(lines: seq<string>, updates: Updates) returns (out: seq<string>)
    ensures out == Applied(lines, updates)
  {
    var remaining := updates;
    out := [];
    for i := 0 to |lines|
      invariant out + Applied(lines[i..], remaining) == Applied(lines, updates)
    {
      AppliedStep(out, lines[i..], remaining);
      assert lines[i..][0] == lines[i] && lines[i..][1..] == lines[i + 1..];
      var active := Active(lines[i]);
      if active.Some? && Has(remaining, active.value.0) {
        var key := active.value.0;
        out := out + [Line(key, Value(remaining, key))];
        remaining := Pop(remaining, key);
      } else {
        out := out + [lines[i]];
      }
    }
    var appended := AppendLines(remaining);
    out := out + appended;
  }

  method AppendLines(remaining: Updates) returns (out: seq<string>)
    ensures out == Lines(remaining)
  {
    out := [];
    for i := 0 to |remaining|
      invariant out + Lines(remaining[i..]) == Lines(remaining)
    {
      out := out + [Line(remaining[i].0, remaining[i].1)];
    }
  }

  function Count(lines: seq<string>, key: string): nat {
    if lines == [] then 0
    else (if Active(lines[0]).Some? && Active(lines[0]).value.0 == key then 1 else 0) + Count(lines[1..], key)
  }

  function Get(env: Env, key: string): Option<string> { if key in env then Some(env[key]) else None }

  lemma {:induction false} CountedIsParsed(lines: seq<string>, key: string)
    ensures Count(lines, key) > 0 <==> key in Parse(lines)
  {
    if lines == [] {
    } else {
      ParseFirst(lines);
      ParseOne(lines[0]);
      CountedIsParsed(lines[1..], key);
    }
  }

  lemma {:induction false} Popped(updates: Updates, key: string, other: string)
    requires DistinctKeys(updates)
    ensures DistinctKeys(Pop(updates, key))
    ensures Has(Pop(updates, key), other) <==> Has(updates, other) && other != key
    ensures Has(updates, other) && other != key ==> Value(Pop(updates, key), other) == Value(updates, other)
  {
    if updates == [] {
    } else {
      Popped(updates[1..], key, other);
      Popped(updates[1..], key, updates[0].0);
      assert ([updates[0]] + Pop(updates[1..], key))[1..] == Pop(updates[1..], key);
    }
  }

  ghost predicate KeysOk(updates: Updates) {
    DistinctKeys(updates) && forall k :: Has(updates, k) ==> IsKey(k)
  }

  lemma {:induction false} ParseLines(updates: Updates, key: string)
    requires KeysOk(updates)
    ensures Get(Parse(Lines(updates)), key) == if Has(updates, key) then Some(Strip(Value(updates, key))) else None
  {
    if updates == [] {
    } else {
      var (k, v) := updates[0];
      assert Has(updates, k);
      forall x | Has(updates[1..], x) ensures IsKey(x) { assert Has(updates, x); }
      WrittenLineParses(k, v);
      ParseOne(Line(k, v));
      ParseLines(updates[1..], key);
      assert Lines(updates)[1..] == Lines(updates[1..]);
      ParseFirst(Lines(updates));
    }
  }

  /** No line before `i` is active with the key of line `i`. */
  predicate FirstOfKey(lines: seq<string>, i: nat)
    requires i < |lines|
  {
    Active(lines[i]).Some? && Count(lines[..i], Active(lines[i]).value.0) == 0
  }

  /** Every line stays where it is: verbatim, or rewritten if it is the first active one of an updated key;
      the updates that met no line follow, in their order. */
  lemma {:induction false} AppliedInPlace(lines: seq<string>, updates: Updates, i: nat)
    requires DistinctKeys(updates) && i < |lines|
    ensures |Applied(lines, updates)| >= |lines|
    ensures Applied(lines, updates)[i] ==
            if FirstOfKey(lines, i) && Has(updates, Active(lines[i]).value.0)
            then Line(Active(lines[i]).value.0, Value(updates, Active(lines[i]).value.0))
            else lines[i]
    decreases |lines|
  {
    var rest := if Hits(lines[0], updates) then Pop(updates, Active(lines[0]).value.0) else updates;
    if Hits(lines[0], updates) { Popped(updates, Active(lines[0]).value.0, ""); }
    var out := Applied(lines, updates);
    assert out[1..] == Applied(lines[1..], rest);
    AppliedLonger(lines, updates);
    if i == 0 {
      assert lines[..0] == [];
    } else {
      AppliedInPlace(lines[1..], rest, i - 1);
      assert out[i] == out[1..][i - 1] && lines[i] == lines[1..][i - 1];
      if Active(lines[i]).Some? {
        var key := Active(lines[i]).value.0;
        assert lines[..i][0] == lines[0] && lines[..i][1..] == lines[1..][..i - 1];
        if Hits(lines[0], updates) { Popped(updates, Active(lines[0]).value.0, key); }
      }
    }
  }

  lemma {:induction false} AppliedLonger(lines: seq<string>, updates: Updates)
    ensures |Applied(lines, updates)| >= |lines|
    decreases |lines|
  {
    if lines == [] {
    } else if Hits(lines[0], updates) {
      AppliedLonger(lines[1..], Pop(updates, Active(lines[0]).value.0));
    } else {
      AppliedLonger(lines[1..], updates);
    }
  }

  /** What is appended: the updates without those that met an active line, in their order. */
  function Unmet(lines: seq<string>, updates: Updates): Updates {
    if updates == [] then []
    else (if Count(lines, updates[0].0) == 0 then [updates[0]] else []) + Unmet(lines, updates[1..])
  }

  lemma {:induction false} UnmetSame(a: seq<string>, b: seq<string>, updates: Updates)
    requires forall k :: Has(updates, k) ==> (Count(a, k) == 0 <==> Count(b, k) == 0)
    ensures Unmet(a, updates) == Unmet(b, updates)
  {
    if updates == [] {
    } else {
      assert Has(updates, updates[0].0);
      forall k | Has(updates[1..], k) ensures Count(a, k) == 0 <==> Count(b, k) == 0 { assert Has(updates, k); }
      UnmetSame(a, b, updates[1..]);
    }
  }

  lemma {:induction false} UnmetPop(lines: seq<string>, rest: seq<string>, updates: Updates, key: string)
    requires DistinctKeys(updates) && Count(lines, key) > 0
    requires forall k :: k != key ==> (Count(lines, k) == 0 <==> Count(rest, k) == 0)
    ensures Unmet(lines, updates) == Unmet(rest, Pop(updates, key))
  {
    if updates == [] {
    } else if updates[0].0 == key {
      forall k | Has(updates[1..], k) ensures Count(lines, k) == 0 <==> Count(rest, k) == 0 {}
      UnmetSame(lines, rest, updates[1..]);
      assert [] + Unmet(rest, updates[1..]) == Unmet(rest, updates[1..]);
    } else {
      UnmetPop(lines, rest, updates[1..], key);
      assert ([updates[0]] + Pop(updates[1..], key))[1..] == Pop(updates[1..], key);
    }
  }

  lemma {:induction false} UnmetNone(updates: Updates)
    ensures Unmet([], updates) == updates
  {
    if updates == [] {
    } else {
      UnmetNone(updates[1..]);
    }
  }

  lemma TailAfter(head: string, rest: seq<string>, n: nat)
    requires n <= |rest|
    ensures ([head] + rest)[n + 1..] == rest[n..]
  {
  }

  lemma {:induction false} AppendedExactly(lines: seq<string>, updates: Updates)
    requires DistinctKeys(updates)
    ensures |Applied(lines, updates)| >= |lines|
    ensures Applied(lines, updates)[|lines|..] == Lines(Unmet(lines, updates))
    decreases |lines|
  {
    AppliedLonger(lines, updates);
    if lines == [] {
      UnmetNone(updates);
    } else if Hits(lines[0], updates) {
      var key := Active(lines[0]).value.0;
      var rest := Applied(lines[1..], Pop(updates, key));
      Popped(updates, key, key);
      AppendedExactly(lines[1..], Pop(updates, key));
      UnmetPop(lines, lines[1..], updates, key);
      TailAfter(Line(key, Value(updates, key)), rest, |lines[1..]|);
    } else {
      AppendedExactly(lines[1..], updates);
      UnmetSame(lines, lines[1..], updates);
      TailAfter(lines[0], Applied(lines[1..], updates), |lines[1..]|);
    }
  }

  /** Key by key: an updated key reads its new value if it had at most one active line; with more, the
      last of the old lines still decides. Every other key reads as before. */
  lemma {:induction false} AppliedReads(lines: seq<string>, updates: Updates, key: string)
    requires KeysOk(updates)
    ensures Get(Parse(Applied(lines, updates)), key) ==
            if Has(updates, key) && Count(lines, key) <= 1 then Some(Strip(Value(updates, key)))
            else Get(Parse(lines), key)
    decreases |lines|
  {
    if lines == [] {
      ParseLines(updates, key);
    } else {
      var out := Applied(lines, updates);
      ParseFirst(lines);
      ParseOne(lines[0]);
      ParseFirst(out);
      CountedIsParsed(lines[1..], key);
      if Hits(lines[0], updates) {
        HitReads(lines, updates, key);
      } else {
        assert out[1..] == Applied(lines[1..], updates);
        AppliedReads(lines[1..], updates, key);
      }
    }
  }

  lemma {:induction false} HitReads(lines: seq<string>, updates: Updates, key: string)
    requires KeysOk(updates) && lines != [] && Hits(lines[0], updates)
    ensures Get(Parse(Applied(lines, updates)), key) ==
            if Has(updates, key) && Count(lines, key) <= 1 then Some(Strip(Value(updates, key)))
            else Get(Parse(lines), key)
    decreases |lines|, 0
  {
    var hit := Active(lines[0]).value.0;
    var popped := Pop(updates, hit);
    forall x ensures Has(popped, x) ==> IsKey(x) { Popped(updates, hit, x); }
    Popped(updates, hit, key);
    AppliedReads(lines[1..], popped, key);
    var written := Line(hit, Value(updates, hit));
    WrittenLineParses(hit, Value(updates, hit));
    ParseFirst(lines);
    ParseOne(lines[0]);
    ParseOne(written);
    assert Applied(lines, updates)[1..] == Applied(lines[1..], popped);
    ParseFirst(Applied(lines, updates));
    CountedIsParsed(lines[1..], key);
  }

  /** Main result: the file parses to the old map overridden by the updates exactly when every updated key
      had at most one active line, or had the new value already. */
  lemma UpdatesOverrideExactly(lines: seq<string>, updates: Updates)
    requires KeysOk(updates)
    ensures (forall key :: Get(Parse(Applied(lines, updates)), key) ==
               if Has(updates, key) then Some(Strip(Value(updates, key))) else Get(Parse(lines), key))
            <==> forall key :: Has(updates, key) ==>
                   Count(lines, key) <= 1 || Get(Parse(lines), key) == Some(Strip(Value(updates, key)))
  {
    forall key ensures Get(Parse(Applied(lines, updates)), key) ==
            if Has(updates, key) && Count(lines, key) <= 1 then Some(Strip(Value(updates, key)))
            else Get(Parse(lines), key)
    {
      AppliedReads(lines, updates, key);
    }
  }

  // ---- Keeping rotating secrets out ----------------------------------------------------------------

  function Kept(lines: seq<string>, blocked: set<string>): seq<string> {
    if lines == [] then []
    else if Active(lines[0]).Some? && Active(lines[0]).value.0 in blocked then Kept(lines[1..], blocked)
    else [lines[0]] + Kept(lines[1..], blocked)
  }

  function Dropped(lines: seq<string>, blocked: set<string>): seq<string> {
    if lines == [] then []
    else if Active(lines[0]).Some? && Active(lines[0]).value.0 in blocked
    then [Active(lines[0]).value.0] + Dropped(lines[1..], blocked)
    else Dropped(lines[1..], blocked)
  }

  lemma {:induction false} KeptConcat(a: seq<string>, b: seq<string>, blocked: set<string>)
    ensures Kept(a + b, blocked) == Kept(a, blocked) + Kept(b, blocked)
    ensures Dropped(a + b, blocked) == Dropped(a, blocked) + Dropped(b, blocked)
  {
    if a == [] {
      assert a + b == b;
    } else {
      assert (a + b)[1..] == a[1..] + b;
      KeptConcat(a[1..], b, blocked);
    }
  }

  /** Line by line and in order, a line is kept verbatim unless it is active with a blocked key; then its key
      is reported. */
  lemma KeptOne(line: string, blocked: set<string>)
    ensures Kept([line], blocked) ==
            if Active(line).Some? && Active(line).value.0 in blocked then [] else [line]
    ensures Dropped([line], blocked) ==
            if Active(line).Some? && Active(line).value.0 in blocked then [Active(line).value.0] else []
  {
    assert [line][1..] == [];
  }

  method StripSopsOnly(lines: seq<string>, blocked: set<string>) returns (kept: seq<string>, dropped: seq<string>)
    ensures kept == Kept(lines, blocked) && dropped == Dropped(lines, blocked)
  {
    kept, dropped := [], [];
    for i := 0 to |lines|
      invariant kept + Kept(lines[i..], blocked) == Kept(lines, blocked)
      invariant dropped + Dropped(lines[i..], blocked) == Dropped(lines, blocked)
    {
      var active := Active(lines[i]);
      if active.Some? && active.value.0 in blocked {
        dropped := dropped + [active.value.0];
      } else {
        kept := kept + [lines[i]];
      }
    }
  }

  lemma {:induction false} KeptReads(lines: seq<string>, blocked: set<string>, key: string)
    ensures Get(Parse(Kept(lines, blocked)), key) == if key in blocked then None else Get(Parse(lines), key)
    ensures key in Dropped(lines, blocked) <==> key in blocked && key in Parse(lines)
  {
    if lines == [] {
    } else {
      KeptReads(lines[1..], blocked, key);
      ParseFirst(lines);
      ParseOne(lines[0]);
      var kept := Kept(lines[1..], blocked);
      ParseFirst([lines[0]] + kept);
      assert ([lines[0]] + kept)[1..] == kept;
    }
  }

  /** Stripping removes exactly the blocked keys, and reports exactly those that were there. */
  lemma StrippedParse(lines: seq<string>, blocked: set<string>)
    ensures Parse(Kept(lines, blocked)) == Parse(lines) - blocked
    ensures forall k :: k in Dropped(lines, blocked) <==> k in blocked && k in Parse(lines)
  {
    forall k ensures Get(Parse(Kept(lines, blocked)), k) == Get(Parse(lines) - blocked, k)
                     && (k in Dropped(lines, blocked) <==> k in blocked && k in Parse(lines))
    {
      KeptReads(lines, blocked, k);
    }
    SameGets(Parse(Kept(lines, blocked)), Parse(lines) - blocked);
  }

  lemma {:induction false} KeptLines(lines: seq<string>, blocked: set<string>)
    requires AllOneLine(lines)
    ensures AllOneLine(Kept(lines, blocked))
  {
    if lines == [] {
    } else {
      assert lines == [lines[0]] + lines[1..];
      LinesCons(lines[0], lines[1..]);
      KeptLines(lines[1..], blocked);
      LinesCons(lines[0], Kept(lines[1..], blocked));
    }
  }

  ghost predicate NewlineFree(updates: Updates) {
    forall u :: u in updates ==> OneLine(u.0) && OneLine(u.1)
  }

  lemma LineIsOneLine(key: string, value: string)
    requires OneLine(key) && OneLine(value)
    ensures OneLine(Line(key, value))
  {
  }

  lemma LinesCons(line: string, lines: seq<string>)
    ensures AllOneLine([line] + lines) <==> OneLine(line) && AllOneLine(lines)
  {
    var all := [line] + lines;
    assert all[0] == line && forall i :: 0 <= i < |lines| ==> all[i + 1] == lines[i];
  }

  lemma {:induction false} ValueIsEntry(updates: Updates, key: string)
    requires Has(updates, key)
    ensures (key, Value(updates, key)) in updates
    ensures forall u :: u in Pop(updates, key) ==> u in updates
  {
    assert updates == [updates[0]] + updates[1..];
    if updates[0].0 != key { ValueIsEntry(updates[1..], key); }
  }

  /** The text a list of lines is written as; a text that would be empty gets no final newline. */
  function FileText(lines: seq<string>): string {
    if lines == [""] then "" else Joined(lines)
  }

  /** What was written parses to what the lines parsed to. */
  lemma WrittenFileParses(lines: seq<string>)
    requires AllOneLine(lines)
    ensures Parse(SplitLines(FileText(lines))) == Parse(lines)
  {
    SplitJoined(lines);
    ParseOne("");
  }

  /** The file `pull` leaves: blocked lines dropped, then the values found in the vault merged in. */
  function Pulled(text: string, blocked: set<string>, found: Updates): string {
    FileText(Applied(Kept(SplitLines(text), blocked), found))
  }

  /** The file `decrypt` leaves. */
  function Decrypted(snapshot: string, blocked: set<string>): string {
    FileText(Kept(SplitLines(snapshot), blocked))
  }

  /** The keys a text defines once it is split into lines. */
  predicate Defines(text: string, key: string) { key in Parse(SplitLines(text)) }

  /** What one written line defines: more than its own key when the value has line breaks in it. */
  ghost predicate Carries(line: string, blocked: set<string>) {
    exists key :: key in blocked && Defines(line, key)
  }

  lemma DefinesConcat(a: string, b: string, key: string)
    requires EndsLine(a)
    ensures Defines(a + b, key) <==> Defines(a, key) || Defines(b, key)
  {
    SplitConcat(a, b);
    ParseConcat(SplitLines(a), SplitLines(b));
  }

  /** Ending a line of a file with a newline does not change what it defines. */
  lemma DefinesEnded(line: string, key: string)
    ensures Defines(line + "\n", key) <==> Defines(line, key)
  {
    if line == "" {
      assert line + "\n" == "\n" && SplitLines("\n") == [""];
      ParseOne("");
    } else if line[|line| - 1] == '\n' {
      DefinesConcat(line, "\n", key);
      assert SplitLines("\n") == [""];
      ParseOne("");
    } else {
      LastLineEnded(line);
      ParseConcat(SplitLines(line), [""]);
      ParseOne("");
    }
  }

  lemma {:induction false} DefinesJoined(lines: seq<string>, key: string)
    ensures Defines(Joined(lines), key) <==> exists line :: line in lines && Defines(line, key)
  {
    if lines == [] {
    } else {
      var ended := lines[0] + "\n";
      assert Joined(lines) == ended + Joined(lines[1..]);
      DefinesConcat(ended, Joined(lines[1..]), key);
      DefinesEnded(lines[0], key);
      DefinesJoined(lines[1..], key);
      assert lines == [lines[0]] + lines[1..];
    }
  }

  lemma DefinesWritten(lines: seq<string>, key: string)
    ensures Defines(FileText(lines), key) <==> exists line :: line in lines && Defines(line, key)
  {
    if lines == [""] {
      assert !Defines("", key) && forall line :: line in lines ==> line == "";
    } else {
      DefinesJoined(lines, key);
    }
  }

  lemma DefinesOneLine(line: string, key: string)
    requires OneLine(line)
    ensures Defines(line, key) <==> Active(line).Some? && Active(line).value.0 == key
  {
    if line == "" {
      ParseOne("");
    } else {
      BreakAtIsFirst(line);
      assert SplitLines(line) == [line];
      ParseOne(line);
    }
  }

  /** A stripped line of the old file defines no blocked key. */
  lemma {:induction false} KeptCarriesNothing(lines: seq<string>, blocked: set<string>, line: string)
    requires AllOneLine(lines) && line in Kept(lines, blocked)
    ensures !Carries(line, blocked)
  {
    assert lines == [lines[0]] + lines[1..];
    LinesCons(lines[0], lines[1..]);
    if line in Kept(lines[1..], blocked) {
      KeptCarriesNothing(lines[1..], blocked, line);
    } else {
      forall key | key in blocked ensures !Defines(line, key) { DefinesOneLine(line, key); }
    }
  }

  function EntryLine(entry: (string, string)): string { Line(entry.0, entry.1) }

  lemma {:induction false} LinesMembers(updates: Updates, line: string)
    ensures line in Lines(updates) <==> exists u :: u in updates && EntryLine(u) == line
  {
    if updates == [] {
    } else {
      LinesMembers(updates[1..], line);
      assert updates == [updates[0]] + updates[1..];
      assert updates[0] in updates && Lines(updates)[0] == EntryLine(updates[0]);
      assert forall u :: u in updates ==> u == updates[0] || u in updates[1..];
    }
  }

  /** Which entry an update takes out, and which it leaves. */
  lemma {:induction false} PopMembers(updates: Updates, key: string, u: (string, string))
    requires Has(updates, key)
    ensures u in updates <==> u in Pop(updates, key) || u == (key, Value(updates, key))
  {
    assert updates == [updates[0]] + updates[1..];
    if updates[0].0 == key {
    } else {
      PopMembers(updates[1..], key, u);
    }
  }

  /** Every update is written, in place or at the end; every other line of the result was there before. */
  lemma {:induction false} AppliedMembers(lines: seq<string>, updates: Updates, u: (string, string), line: string)
    ensures u in updates ==> EntryLine(u) in Applied(lines, updates)
    ensures line in Applied(lines, updates) ==> line in lines || exists v :: v in updates && EntryLine(v) == line
    decreases |lines|
  {
    if lines == [] {
      LinesMembers(updates, line);
      LinesMembers(updates, EntryLine(u));
    } else {
      assert lines == [lines[0]] + lines[1..];
      if Hits(lines[0], updates) {
        var key := Active(lines[0]).value.0;
        var hit := (key, Value(updates, key));
        ValueIsEntry(updates, key);
        PopMembers(updates, key, u);
        AppliedMembers(lines[1..], Pop(updates, key), u, line);
        assert EntryLine(hit) == Line(key, Value(updates, key)) && hit in updates;
      } else {
        AppliedMembers(lines[1..], updates, u, line);
      }
    }
  }

  /** No vault value smuggles in a blocked key: neither the key of its line nor, where the value has line
      breaks, any of the lines it falls into is a blocked one. */
  ghost predicate Clean(found: Updates, blocked: set<string>) {
    forall u :: u in found ==> !Carries(EntryLine(u), blocked)
  }

  /** Main result: whatever the file held and whatever line breaks the vault values have, `pull` leaves no
      SOPS-only key in the plaintext file if and only if the vault values are clean; `decrypt` never leaves
      one and loses no other key. */
  lemma SopsOnlyKeysStayOut(text: string, blocked: set<string>, found: Updates)
    ensures (forall key :: key in blocked ==> !Defines(Pulled(text, blocked, found), key)) <==> Clean(found, blocked)
    ensures Parse(SplitLines(Decrypted(text, blocked))) == Parse(SplitLines(text)) - blocked
  {
    var lines := SplitLines(text);
    SplitGivesLines(text);
    StrippedParse(lines, blocked);
    KeptLines(lines, blocked);
    WrittenFileParses(Kept(lines, blocked));
    if Clean(found, blocked) {
      forall key | key in blocked ensures !Defines(Pulled(text, blocked, found), key) {
        CleanPull(lines, blocked, found, key);
      }
    } else {
      var u :| u in found && Carries(EntryLine(u), blocked);
      var key :| key in blocked && Defines(EntryLine(u), key);
      var out := Applied(Kept(lines, blocked), found);
      AppliedMembers(Kept(lines, blocked), found, u, "");
      DefinesWritten(out, key);
      assert Defines(Pulled(text, blocked, found), key);
    }
  }

  lemma CleanPull(lines: seq<string>, blocked: set<string>, found: Updates, key: string)
    requires AllOneLine(lines) && Clean(found, blocked) && key in blocked
    ensures !Defines(FileText(Applied(Kept(lines, blocked), found)), key)
  {
    var out := Applied(Kept(lines, blocked), found);
    DefinesWritten(out, key);
    forall line | line in out ensures !Defines(line, key) {
      AppliedMembers(Kept(lines, blocked), found, ("", ""), line);
      if line in Kept(lines, blocked) {
        KeptCarriesNothing(lines, blocked, line);
      }
    }
  }

  /** Values without line breaks under keys that are not blocked are clean. */
  lemma NewlineFreeIsClean(blocked: set<string>, found: Updates)
    requires KeysOk(found) && NewlineFree(found) && forall k :: k in blocked ==> !Has(found, k)
    ensures Clean(found, blocked)
  {
    forall u | u in found ensures !Carries(EntryLine(u), blocked) {
      EntryHas(found, u);
      LineIsOneLine(u.0, u.1);
      WrittenLineParses(u.0, u.1);
      forall key | key in blocked ensures !Defines(EntryLine(u), key) { DefinesOneLine(EntryLine(u), key); }
    }
  }

  lemma {:induction false} EntryHas(updates: Updates, u: (string, string))
    requires u in updates
    ensures Has(updates, u.0)
  {
    assert updates == [updates[0]] + updates[1..];
    if updates[0] == u {
    } else {
      EntryHas(updates[1..], u);
    }
  }

  /** A two-line value is enough: for every variable and every blocked key there is a value that carries it. */
  lemma TwoLineValueCarries(key: string, first: string, hidden: string, second: string, blocked: set<string>)
    requires OneLine(Line(key, first)) && OneLine(Line(hidden, second)) && IsKey(hidden) && hidden in blocked
    ensures Carries(EntryLine((key, first + "\n" + Line(hidden, second))), blocked)
  {
    var a, b := Line(key, first), Line(hidden, second);
    assert EntryLine((key, first + "\n" + b)) == (a + "\n") + b;
    DefinesConcat(a + "\n", b, hidden);
    WrittenLineParses(hidden, second);
    DefinesOneLine(b, hidden);
  }

  // ---- encrypt: the merge ----------------------------------------------------------------------------

  /** The local file with a final newline, a blank line, comment lines, and one line per preserved key. */
  function Merged(local: string, comments: seq<string>, preserved: Updates): string {
    local + (if local != "" && local[|local| - 1] == '\n' then "" else "\n")
    + Joined([""] + comments + Lines(preserved))
  }

  ghost predicate SnapshotOnly(local: Env, snapshot: Env, preserved: Updates) {
    && DistinctKeys(preserved)
    && (forall k :: Has(preserved, k) <==> k in snapshot && k !in local)
    && (forall k :: Has(preserved, k) ==> Value(preserved, k) == snapshot[k])
  }

  lemma {:induction false} ParsedAreKeys(lines: seq<string>, key: string)
    requires AllOneLine(lines) && key in Parse(lines)
    ensures IsKey(key) && Strip(Parse(lines)[key]) == Parse(lines)[key] && OneLine(key) && OneLine(Parse(lines)[key])
  {
    ParseFirst(lines);
    ParseOne(lines[0]);
    if key in Parse(lines[1..]) {
      forall i | 0 <= i < |lines[1..]| ensures OneLine(lines[1..][i]) { assert lines[1..][i] == lines[i + 1]; }
      ParsedAreKeys(lines[1..], key);
    } else {
      ActiveYieldsKey(lines[0]);
    }
  }

  lemma {:induction false} CommentsParseToNothing(lines: seq<string>)
    requires forall i :: 0 <= i < |lines| ==> lines[i] == "" || lines[i][0] == '#'
    ensures Parse(lines) == map[]
  {
    if lines == [] {
    } else {
      var line := lines[|lines| - 1];
      CommentsParseToNothing(lines[..|lines| - 1]);
      if line != "" {
        assert !IsSpace('#') && LStrip(line) == line;
        assert line == ['#'] + line[1..];
        RStripAfter(['#'], line[1..]);
      }
    }
  }

  lemma SameGets(a: Env, b: Env)
    requires forall k :: Get(a, k) == Get(b, k)
    ensures a == b
  {
    forall k ensures k in a <==> k in b { assert Get(a, k) == Get(b, k); }
    forall k | k in a ensures a[k] == b[k] { assert Get(a, k) == Get(b, k); }
  }

  lemma {:induction false} LinesAreLines(updates: Updates)
    requires DistinctKeys(updates) && forall k :: Has(updates, k) ==> OneLine(k) && OneLine(Value(updates, k))
    ensures AllOneLine(Lines(updates))
  {
    if updates == [] {
    } else {
      assert Has(updates, updates[0].0);
      forall k | Has(updates[1..], k) ensures OneLine(k) && OneLine(Value(updates[1..], k)) {
        assert Has(updates, k) && Value(updates, k) == Value(updates[1..], k);
      }
      LinesAreLines(updates[1..]);
    }
  }

  /** Ending the last line of the local file changes nothing in what it parses to. */
  lemma EndedParse(local: string)
    ensures var ended := local + (if local != "" && local[|local| - 1] == '\n' then "" else "\n");
            EndsLine(ended) && Parse(SplitLines(ended)) == Parse(SplitLines(local))
  {
    if local == "" {
      SplitJoined([""]);
      assert [""][1..] == [] && Joined([""]) == "\n" && local + "\n" == "\n";
      ParseOne("");
    } else if local[|local| - 1] == '\n' {
      assert local + "" == local;
    } else {
      LastLineEnded(local);
      ParseConcat(SplitLines(local), [""]);
      ParseOne("");
      assert Parse(SplitLines(local)) + map[] == Parse(SplitLines(local));
    }
  }

  lemma PreservedAreWritable(snapshot: seq<string>, local: Env, preserved: Updates)
    requires AllOneLine(snapshot) && SnapshotOnly(local, Parse(snapshot), preserved)
    ensures KeysOk(preserved) && AllOneLine(Lines(preserved))
    ensures forall k :: Has(preserved, k) ==> Strip(Value(preserved, k)) == Value(preserved, k)
  {
    forall k | Has(preserved, k)
      ensures IsKey(k) && OneLine(k) && OneLine(Value(preserved, k))
      ensures Strip(Value(preserved, k)) == Value(preserved, k)
    {
      ParsedAreKeys(snapshot, k);
    }
    LinesAreLines(preserved);
  }

  lemma MergedMaps(local: Env, snapshot: Env, preserved: Updates, added: Env)
    requires SnapshotOnly(local, snapshot, preserved)
    requires forall k :: Get(added, k) == if Has(preserved, k) then Some(Value(preserved, k)) else None
    ensures local + added == snapshot + local
  {
    forall k ensures Get(local + added, k) == Get(snapshot + local, k) {
      assert Get(added, k) == if Has(preserved, k) then Some(Value(preserved, k)) else None;
    }
    SameGets(local + added, snapshot + local);
  }

  ghost predicate Comments(lines: seq<string>) {
    AllOneLine(lines) && forall i :: 0 <= i < |lines| ==> lines[i] != "" && lines[i][0] == '#'
  }

  lemma CommentedParse(comments: seq<string>, lines: seq<string>)
    requires Comments(comments)
    ensures Parse([""] + comments + lines) == Parse(lines)
    ensures AllOneLine(lines) ==> AllOneLine([""] + comments + lines)
  {
    CommentsParseToNothing([""] + comments);
    ParseConcat([""] + comments, lines);
    assert map[] + Parse(lines) == Parse(lines);
  }

  /** What the added lines parse to: the preserved entries. */
  lemma AddedParse(snapshot: seq<string>, local: Env, comments: seq<string>, preserved: Updates)
    requires AllOneLine(snapshot) && SnapshotOnly(local, Parse(snapshot), preserved) && Comments(comments)
    ensures AllOneLine([""] + comments + Lines(preserved))
    ensures local + Parse([""] + comments + Lines(preserved)) == Parse(snapshot) + local
  {
    PreservedAreWritable(snapshot, local, preserved);
    CommentedParse(comments, Lines(preserved));
    var added := Parse(Lines(preserved));
    forall k ensures Get(added, k) == if Has(preserved, k) then Some(Value(preserved, k)) else None {
      ParseLines(preserved, k);
    }
    MergedMaps(local, Parse(snapshot), preserved, added);
  }

  /** Main result: the merged file parses to the local values plus the snapshot's values for the keys only
      the snapshot has; nothing that lives only in the snapshot is lost. */
  lemma EncryptMerges(local: string, snapshot: string, comments: seq<string>, preserved: Updates)
    requires SnapshotOnly(Parse(SplitLines(local)), Parse(SplitLines(snapshot)), preserved)
    requires Comments(comments)
    ensures Parse(SplitLines(Merged(local, comments, preserved))) ==
            Parse(SplitLines(snapshot)) + Parse(SplitLines(local))
  {
    SplitGivesLines(snapshot);
    AddedParse(SplitLines(snapshot), Parse(SplitLines(local)), comments, preserved);
    var added := [""] + comments + Lines(preserved);
    SplitJoined(added);
    EndedParse(local);
    var ended := local + (if local != "" && local[|local| - 1] == '\n' then "" else "\n");
    SplitConcat(ended, Joined(added));
    ParseConcat(SplitLines(ended), added);
  }

  // ---- The commands on their two files ---------------------------------------------------------------

  method KeysOnlyInSnapshot(snapshot: Env, local: Env) returns (preserved: Updates)
    ensures SnapshotOnly(local, snapshot, preserved)
  {
    preserved := [];
    var keys := snapshot.Keys;
    while keys != {}
      invariant keys <= snapshot.Keys && DistinctKeys(preserved)
      invariant forall k :: Has(preserved, k) <==> k in snapshot && k !in keys && k !in local
      invariant forall k :: Has(preserved, k) ==> Value(preserved, k) == snapshot[k]
      decreases |keys|
    {
      var key :| key in keys;
      keys := keys - {key};
      if key !in local {
        ghost var before := preserved;
        preserved := [(key, snapshot[key])] + preserved;
        assert preserved[1..] == before;
        assert forall k :: Has(preserved, k) <==> k == key || Has(before, k);
      }
    }
  }

  /** What the old snapshot contributes to the new one: nothing when told to replace it. */
  function KeptKeys(overwrite: bool, snapshot: Option<string>): Env {
    if overwrite || snapshot.None? then map[] else Parse(SplitLines(snapshot.value))
  }

  class SecretFiles {
    var envLocal: Option<string>
    var snapshot: Option<string>   // what .env.local.sops decrypts to

    /** Does nothing without a configured vault. `found` are the non-empty vault values of the secrets that
        may live in the plaintext file. */
    method Pull(configured: bool, blocked: set<string>, found: Updates)
      modifies this`envLocal
      ensures envLocal == if configured
                          then Some(Pulled(if old(envLocal).Some? then old(envLocal).value else "", blocked, found))
                          else old(envLocal)
    {
      if !configured {
        return;
      }
      var lines := SplitLines(if envLocal.Some? then envLocal.value else "");
      var kept, _ := StripSopsOnly(lines, blocked);
      var out := ApplyUpdates(kept, found);
      envLocal := Some(FileText(out));
    }

    method Decrypt(installed: bool, decrypts: bool, blocked: set<string>) returns (ok: bool)
      modifies this`envLocal
      ensures ok <==> installed && snapshot.Some? && decrypts
      ensures envLocal == if ok then Some(Decrypted(snapshot.value, blocked)) else old(envLocal)
    {
      if !installed || snapshot.None? || !decrypts {
        return false;
      }
      var kept, _ := StripSopsOnly(SplitLines(snapshot.value), blocked);
      envLocal := Some(FileText(kept));
      ok := true;
    }

    /** Refuses without the tool or a local file, refuses to merge with a snapshot it cannot decrypt, and
        fails when the encryption does; each leaves the snapshot as it was. Otherwise the new snapshot holds
        every local value and, unless told to overwrite, every key only the old snapshot had. */
    method Encrypt(overwrite: bool, installed: bool, decrypts: bool, encrypts: bool, comments: seq<string>)
      returns (ok: bool)
      requires Comments(comments)
      modifies this`snapshot
      ensures ok <==> installed && envLocal.Some? && (overwrite || old(snapshot).None? || decrypts) && encrypts
      ensures !ok ==> snapshot == old(snapshot)
      ensures ok ==> snapshot.Some?
      ensures ok ==> envLocal.value <= snapshot.value
      ensures ok && (overwrite || old(snapshot).None?) ==> snapshot == envLocal
      ensures ok ==>
                Parse(SplitLines(snapshot.value))
                == KeptKeys(overwrite, old(snapshot)) + Parse(SplitLines(envLocal.value))
    {
      if !installed || envLocal.None? {
        return false;
      }
      var plaintext := envLocal.value;
      if !overwrite && snapshot.Some? {
        if !decrypts {
          return false;
        }
        var theirs := ParseEnvMap(SplitLines(snapshot.value));
        var ours := ParseEnvMap(SplitLines(plaintext));
        var preserved := KeysOnlyInSnapshot(theirs, ours);
        if preserved != [] {
          EncryptMerges(plaintext, snapshot.value, comments, preserved);
          plaintext := Merged(plaintext, comments, preserved);
        } else {
          assert forall k :: k in theirs ==> k in ours;
          assert theirs + ours == ours;
        }
      }
      if !encrypts {
        return false;
      }
      snapshot := Some(plaintext);
      ok := true;
    }
  }
}
