/** Dropping repeated entries from a scan-list file, leaving every other line as it is. */
module ScanList {
  import opened Distinct
  import opened Wrappers

  // ---- lines ----

  // The length of the first line, its line feed included.
  function LineLength(s: string): (n: nat)
    ensures n <= |s| && (s != "" ==> n > 0)
  {
    if s == "" then 0 else if s[0] == '\n' then 1 else 1 + LineLength(s[1..])
  }

  function SplitInclusive(s: string): seq<string>
    decreases |s|
  {
    if s == "" then [] else [s[..LineLength(s)]] + SplitInclusive(s[LineLength(s)..])
  }

  function Join(lines: seq<string>): string {
    if lines == [] then "" else lines[0] + Join(lines[1..])
  }

  predicate EndsLine(line: string) { line != "" && line[|line| - 1] == '\n' }

  predicate IsLine(line: string) { line != "" && forall i :: 0 <= i < |line| - 1 ==> line[i] != '\n' }

  // The lines of some text: only the last one may lack its line feed.
  predicate AreLines(lines: seq<string>) {
    && (forall i :: 0 <= i < |lines| ==> IsLine(lines[i]))
    && (forall i :: 0 <= i < |lines| - 1 ==> EndsLine(lines[i]))
  }

  lemma {:induction false} FirstLine(s: string)
    requires s != ""
    ensures IsLine(s[..LineLength(s)]) && (LineLength(s) < |s| ==> EndsLine(s[..LineLength(s)]))
  {
    if s[0] != '\n' && s[1..] != "" {
      FirstLine(s[1..]);
      assert s[..LineLength(s)] == [s[0]] + s[1..][..LineLength(s[1..])];
    }
  }

  lemma {:induction false} SplitIntoLines(s: string)
    ensures AreLines(SplitInclusive(s)) && Join(SplitInclusive(s)) == s
    decreases |s|
  {
    if s != "" {
      var rest := s[LineLength(s)..];
      FirstLine(s);
      SplitIntoLines(rest);
      OneMoreLine(s[..LineLength(s)], SplitInclusive(rest));
      assert s == s[..LineLength(s)] + rest;
    }
  }

  lemma OneMoreLine(line: string, lines: seq<string>)
    requires AreLines(lines) && IsLine(line) && (lines == [] || EndsLine(line))
    ensures AreLines([line] + lines) && Join([line] + lines) == line + Join(lines)
  {
    assert ([line] + lines)[1..] == lines;
  }

  lemma {:induction false} LengthOfFirst(line: string, rest: string)
    requires IsLine(line) && (rest == "" || EndsLine(line))
    ensures LineLength(line + rest) == |line|
  {
    assert (line + rest)[0] == line[0];
    if |line| == 1 {
      assert rest == "" ==> line + rest == line;
    } else {
      assert (line + rest)[1..] == line[1..] + rest;
      LengthOfFirst(line[1..], rest);
    }
  }

  lemma {:induction false} JoinSplitsBack(lines: seq<string>)
    requires AreLines(lines)
    ensures SplitInclusive(Join(lines)) == lines
  {
    if lines != [] {
      var line, rest := lines[0], Join(lines[1..]);
      assert lines[1..] == [] ==> rest == "";
      LengthOfFirst(line, rest);
      assert (line + rest)[..|line|] == line && (line + rest)[|line|..] == rest;
      JoinSplitsBack(lines[1..]);
    }
  }

  lemma {:induction false} JoinGrows(lines: seq<string>, line: string)
    ensures Join(lines + [line]) == Join(lines) + line
  {
    if lines == [] {
      assert lines + [line] == [line];
      assert Join([line]) == line;
    } else {
      assert (lines + [line])[1..] == lines[1..] + [line];
      JoinGrows(lines[1..], line);
    }
  }

  // ---- entries ----

  // Unicode White_Space.
  predicate IsWhitespace(c: char) {
    var n := c as int;
    || 0x09 <= n <= 0x0D || n == 0x20 || n == 0x85 || n == 0xA0 || n == 0x1680 || 0x2000 <= n <= 0x200A
    || n == 0x2028 || n == 0x2029 || n == 0x202F || n == 0x205F || n == 0x3000
  }

  function Trim(s: string): string
    decreases |s|
  {
    if s == "" then ""
    else if IsWhitespace(s[0]) then Trim(s[1..])
    else if IsWhitespace(s[|s| - 1]) then Trim(s[..|s| - 1])
    else s
  }

  // The key of a line; comments and blank lines have none.
  function LineKey(entryKey: string -> Option<string>, line: string): Option<string> {
    var entry := Trim(line);
    if entry == "" || entry[0] == '#' then None else entryKey(entry)
  }

  predicate IsBlank(s: string) { forall i :: 0 <= i < |s| ==> IsWhitespace(s[i]) }

  // An entry neither starts nor ends with white space.
  predicate IsTrimmed(s: string) { s != "" ==> !IsWhitespace(s[0]) && !IsWhitespace(s[|s| - 1]) }

  // Exactly the white space around an entry is trimmed away.
  lemma {:induction false} TrimFindsTheEntry(before: string, entry: string, after: string)
    requires IsBlank(before) && IsBlank(after) && IsTrimmed(entry)
    ensures Trim(before + entry + after) == entry
    decreases |before| + |after|
  {
    var s := before + entry + after;
    if before != "" {
      assert s[0] == before[0] && s[1..] == before[1..] + entry + after;
      TrimFindsTheEntry(before[1..], entry, after);
    } else if after != "" {
      assert s == entry + after;
      if entry == "" {
        assert s[0] == after[0] && s[1..] == "" + entry + after[1..];
        TrimFindsTheEntry("", entry, after[1..]);
      } else {
        assert s[0] == entry[0] && s[..|s| - 1] == before + entry + after[..|after| - 1];
        TrimFindsTheEntry(before, entry, after[..|after| - 1]);
      }
    } else {
      assert s == entry;
    }
  }

  // Indentation and line ends of either kind are no part of an entry.
  lemma LineEndIsTrimmed(entry: string)
    requires IsTrimmed(entry)
    ensures Trim(" \t" + entry + "\r\n") == entry == Trim(" \t" + entry + "\n")
  {
    TrimFindsTheEntry(" \t", entry, "\r\n");
    TrimFindsTheEntry(" \t", entry, "\n");
  }

  // A line has the key of its entry; it has none if there is no entry or the entry is a comment.
  lemma LineHasTheKeyOfItsEntry(entryKey: string -> Option<string>, before: string, entry: string, after: string)
    requires IsBlank(before) && IsBlank(after) && IsTrimmed(entry)
    ensures LineKey(entryKey, before + entry + after)
         == if "#" <= entry || entry == "" then None else entryKey(entry)
  {
    TrimFindsTheEntry(before, entry, after);
  }

  // Every line is some entry with white space around it.
  lemma {:induction false} EveryLineHasAnEntry(line: string) returns (before: string, entry: string, after: string)
    ensures line == before + entry + after && IsBlank(before) && IsBlank(after) && IsTrimmed(entry)
    decreases |line|
  {
    before, entry, after := "", line, "";
    if line != "" && IsWhitespace(line[0]) {
      before, entry, after := EveryLineHasAnEntry(line[1..]);
      before := [line[0]] + before;
    } else if line != "" && IsWhitespace(line[|line| - 1]) {
      before, entry, after := EveryLineHasAnEntry(line[..|line| - 1]);
      after := after + [line[|line| - 1]];
    }
  }

  function KeyOf(entryKey: string -> Option<string>): string -> Option<string> {
    line => LineKey(entryKey, line)
  }

  // The lines of the text without those that repeat an earlier key.
  function KeptLines(content: string, entryKey: string -> Option<string>): seq<string> {
    KeepFirst(SplitInclusive(content), KeyOf(entryKey))
  }

  // The keys of the lines read so far.
  ghost predicate AreKeysOf(seen: set<string>, lines: seq<string>, key: string -> Option<string>) {
    forall k :: k in seen <==> exists i :: 0 <= i < |lines| && key(lines[i]) == Some(k)
  }

  lemma OneMoreKey(seen: set<string>, lines: seq<string>, key: string -> Option<string>, line: string)
    requires AreKeysOf(seen, lines, key)
    ensures Repeats(lines, key, line) <==> key(line).Some? && key(line).value in seen
    ensures AreKeysOf(if key(line).Some? then seen + {key(line).value} else seen, lines + [line], key)
    ensures KeepFirst(lines + [line], key)
         == (if Repeats(lines, key, line) then KeepFirst(lines, key) else KeepFirst(lines, key) + [line])
  {
    assert (lines + [line])[..|lines|] == lines;
    var more := if key(line).Some? then seen + {key(line).value} else seen;
    forall k ensures k in more <==> exists i :: 0 <= i < |lines + [line]| && key((lines + [line])[i]) == Some(k) {
      if k in seen {
        var i :| 0 <= i < |lines| && key(lines[i]) == Some(k);
        assert key((lines + [line])[i]) == Some(k);
      } else if key(line) == Some(k) {
        assert key((lines + [line])[|lines|]) == Some(k);
      }
    }
  }

  /** Copies the text line by line, leaving out each line whose key was seen before. */
  method Deduplicate(content: string, entryKey: string -> Option<string>) returns (cleaned: string, removed: nat)
    ensures cleaned == Join(KeptLines(content, entryKey))
    ensures removed == |SplitInclusive(content)| - |KeptLines(content, entryKey)|
  {
    var seen: set<string> := {};
    var rest := content;
    cleaned, removed := "", 0;
    ghost var key := KeyOf(entryKey);
    ghost var lines: seq<string> := [];
    while rest != ""
      invariant lines + SplitInclusive(rest) == SplitInclusive(content)
      invariant cleaned == Join(KeepFirst(lines, key)) && removed == |lines| - |KeepFirst(lines, key)|
      invariant AreKeysOf(seen, lines, key)
      decreases |rest|
    {
      var n := LineLength(rest);
      var line := rest[..n];
      assert lines + SplitInclusive(rest) == (lines + [line]) + SplitInclusive(rest[n..]);
      rest := rest[n..];
      OneMoreKey(seen, lines, key, line);
      JoinGrows(KeepFirst(lines, key), line);
      lines := lines + [line];
      var entry := Trim(line);
      if entry != "" && entry[0] != '#' {
        var k := entryKey(entry);
        if k.Some? {
          var isNew := k.value !in seen;
          seen := seen + {k.value};
          if !isNew {
            removed := removed + 1;
            continue;
          }
        }
      }
      cleaned := cleaned + line;
    }
    assert lines == SplitInclusive(content);
  }

  /** The text of a scan list, the number of entries dropped, and what the file holds afterwards. */
  method ReadScanList(content: string, deduplicate: bool, entryKey: string -> Option<string>)
    returns (text: string, removed: nat, file: string)
    ensures !deduplicate ==> text == content && removed == 0
    ensures deduplicate ==> SplitInclusive(text) == KeptLines(content, entryKey)
    ensures deduplicate ==> removed == |SplitInclusive(content)| - |SplitInclusive(text)|
    ensures file == text
  {
    file := content;
    if !deduplicate {
      return content, 0, file;
    }
    text, removed := Deduplicate(content, entryKey);
    CleanedSplits(content, entryKey);
    if removed > 0 {
      file := text;
    }
  }

  lemma CleanedSplits(content: string, entryKey: string -> Option<string>)
    ensures var lines, kept := SplitInclusive(content), KeptLines(content, entryKey);
            SplitInclusive(Join(kept)) == kept && |kept| <= |lines| && (|kept| == |lines| ==> Join(kept) == content)
  {
    KeptAreLines(content, entryKey);
    JoinSplitsBack(KeptLines(content, entryKey));
    SplitIntoLines(content);
    KeptIsNoLonger(SplitInclusive(content), KeyOf(entryKey));
  }

  lemma KeptAreLines(content: string, entryKey: string -> Option<string>)
    ensures AreLines(KeptLines(content, entryKey))
  {
    SplitIntoLines(content);
    var lines, kept := SplitInclusive(content), KeptLines(content, entryKey);
    var at := KeptExactly(lines, KeyOf(entryKey));
    forall i | 0 <= i < |kept| ensures IsLine(kept[i]) && (i < |kept| - 1 ==> EndsLine(kept[i])) {
      assert kept[i] == lines[at[i]];
      if i < |kept| - 1 {
        assert at[i] < at[|kept| - 1] < |lines|;
      }
    }
  }

  // No earlier line has the same key, or there is no key at all.
  predicate HasNewKey(lines: seq<string>, entryKey: string -> Option<string>, i: nat)
    requires i < |lines|
  {
    var key := LineKey(entryKey, lines[i]);
    key.None? || forall j :: 0 <= j < i ==> LineKey(entryKey, lines[j]) != key
  }

  // What stays is, byte for byte and in order, the first line of each key and every line without one.
  lemma FirstOfEachKeyStays(content: string, entryKey: string -> Option<string>) returns (at: seq<nat>)
    ensures var lines, kept := SplitInclusive(content), KeptLines(content, entryKey);
            && |at| == |kept| && (forall m, n :: 0 <= m < n < |at| ==> at[m] < at[n])
            && (forall n :: 0 <= n < |at| ==> at[n] < |lines| && kept[n] == lines[at[n]])
            && (forall i :: 0 <= i < |lines| ==>
                  (i in at <==> HasNewKey(lines, entryKey, i)))
  {
    var lines, key := SplitInclusive(content), KeyOf(entryKey);
    at := KeptExactly(lines, key);
    forall i | 0 <= i < |lines|
      ensures i in at <==> HasNewKey(lines, entryKey, i)
    {
      assert i in at <==> !Repeats(lines[..i], key, lines[i]);
      assert forall j :: 0 <= j < i ==> lines[..i][j] == lines[j];
    }
  }

  // Every key of the file is still there, and no other.
  lemma NoKeyIsLost(content: string, entryKey: string -> Option<string>, k: string)
    ensures (exists line :: line in SplitInclusive(content) && LineKey(entryKey, line) == Some(k))
       <==> (exists line :: line in KeptLines(content, entryKey) && LineKey(entryKey, line) == Some(k))
  {
    KeysSurvive(SplitInclusive(content), KeyOf(entryKey), k);
    assert forall line :: KeyOf(entryKey)(line) == LineKey(entryKey, line);
  }

  // A second pass over the cleaned text removes nothing and returns it unchanged.
  lemma SecondPassChangesNothing(content: string, entryKey: string -> Option<string>, text: string)
    requires SplitInclusive(text) == KeptLines(content, entryKey)
    ensures KeptLines(text, entryKey) == SplitInclusive(text)
    ensures forall again :: SplitInclusive(again) == KeptLines(text, entryKey) ==> again == text
  {
    KeepFirstIsIdempotent(SplitInclusive(content), KeyOf(entryKey));
    SplitIntoLines(text);
    forall again | SplitInclusive(again) == SplitInclusive(text) ensures again == text {
      SplitIntoLines(again);
    }
  }
}
