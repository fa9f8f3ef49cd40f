/** The text format of a `ContentIndexMap`: one `name objectId` record per
    line, comments and blank lines skipped, and the merged view of the loaded
    and the unsaved records. The character classes `\s` and `\w` of the two
    entry patterns, and `ObjectId.TryParse` / `ObjectId.ToString`, are
    parameters of the model. */
module ContentIndex {
  import opened Wrappers
  import opened ObjectIds
  import opened KeyedPairs

  // ============================================================ characters and lines

  /** `\s` (which is also what `String.Trim` removes) and `\w`. */
  datatype CharClasses = CharClasses(isSpace: char -> bool, isWord: char -> bool) {
    /** No character is both; blank, tab and both line-break characters are
        white space. */
    ghost predicate Valid() {
      && (forall c :: !(isSpace(c) && isWord(c)))
      && isSpace(' ') && isSpace('\t') && isSpace('\n') && isSpace('\r')
    }

    predicate AllSpace(s: string) {
      forall i :: 0 <= i < |s| ==> isSpace(s[i])
    }

    predicate AllWord(s: string) {
      forall i :: 0 <= i < |s| ==> isWord(s[i])
    }
  }

  predicate IsLineBreak(c: char) {
    c == '\n' || c == '\r'
  }

  predicate NoLineBreak(s: string) {
    forall i :: 0 <= i < |s| ==> !IsLineBreak(s[i])
  }

  /** `String.TrimStart`: a suffix that does not start with white space;
      `TrimStartDropsSpace` states that what it drops is white space. */
  function TrimStart(s: string, cc: CharClasses): (r: string)
    ensures |r| <= |s| && r == s[|s| - |r|..]
    ensures r == [] || !cc.isSpace(r[0])
  {
    if s != [] && cc.isSpace(s[0]) then TrimStart(s[1..], cc) else s
  }

  /** `String.TrimEnd`: a prefix that does not end with white space;
      `TrimEndDropsSpace` states that what it drops is white space. */
  function TrimEnd(s: string, cc: CharClasses): (r: string)
    ensures |r| <= |s| && r == s[..|r|]
    ensures r == [] || !cc.isSpace(r[|r| - 1])
  {
    if s != [] && cc.isSpace(s[|s| - 1]) then TrimEnd(s[..|s| - 1], cc) else s
  }

  /** `TrimStart` drops only white space, so it keeps the longest suffix
      that does not start with white space. */
  lemma {:induction false} TrimStartDropsSpace(s: string, cc: CharClasses)
    ensures cc.AllSpace(s[..|s| - |TrimStart(s, cc)|])
  {
    if s != [] && cc.isSpace(s[0]) {
      TrimStartDropsSpace(s[1..], cc);
      var r := TrimStart(s[1..], cc);
      assert s[..|s| - |r|] == [s[0]] + s[1..][..|s| - 1 - |r|];
    }
  }

  /** `TrimEnd` drops only white space, so it keeps the longest prefix that
      does not end with white space. */
  lemma {:induction false} TrimEndDropsSpace(s: string, cc: CharClasses)
    ensures cc.AllSpace(s[|TrimEnd(s, cc)|..])
  {
    if s != [] && cc.isSpace(s[|s| - 1]) {
      TrimEndDropsSpace(s[..|s| - 1], cc);
      var r := TrimEnd(s[..|s| - 1], cc);
      assert s[|r|..] == s[..|s| - 1][|r|..] + [s[|s| - 1]];
    }
  }

  /** `String.Trim`: no white space at either end; `TrimKeepsSlice` states
      what it keeps. */
  function Trim(s: string, cc: CharClasses): (r: string)
    ensures r == [] || (!cc.isSpace(r[0]) && !cc.isSpace(r[|r| - 1]))
  {
    var t := TrimStart(s, cc);
    var r := TrimEnd(t, cc);
    assert r != [] ==> r[0] == t[0];
    r
  }

  /** The trimmed text is a slice of the text with only white space before
      and after it. */
  lemma TrimKeepsSlice(s: string, cc: CharClasses)
    ensures var r := Trim(s, cc);
            exists i :: 0 <= i && i + |r| <= |s| && r == s[i..i + |r|] && cc.AllSpace(s[..i]) && cc.AllSpace(s[i + |r|..])
  {
    var t := TrimStart(s, cc);
    var r := TrimEnd(t, cc);
    var i := |s| - |t|;
    TrimStartDropsSpace(s, cc);
    TrimEndDropsSpace(t, cc);
    assert r == s[i..i + |r|];
    assert s[i + |r|..] == t[|r|..];
  }

  /** A string that starts and ends with something other than white space is
      its own trim. */
  lemma TrimOfTrimmed(s: string, cc: CharClasses)
    requires s == [] || (!cc.isSpace(s[0]) && !cc.isSpace(s[|s| - 1]))
    ensures Trim(s, cc) == s
  {
  }

  /** Where the line starting the text ends: the first line break, or the
      end of the text. */
  function LineEnd(text: string): (e: nat)
    ensures e <= |text| && NoLineBreak(text[..e])
    ensures e < |text| ==> IsLineBreak(text[e])
  {
    if text == [] || IsLineBreak(text[0]) then 0
    else
      var e := 1 + LineEnd(text[1..]);
      assert text[..e] == [text[0]] + text[1..][..e - 1];
      e
  }

  /** Where the next line starts: after `\n`, `\r` or `\r\n`. */
  function NextLineStart(text: string): (n: nat)
    requires text != []
    ensures LineEnd(text) < n <= |text| || (LineEnd(text) == n == |text|)
  {
    var e := LineEnd(text);
    if e == |text| then e
    else if text[e] == '\r' && e + 1 < |text| && text[e + 1] == '\n' then e + 2
    else e + 1
  }

  /** The lines `StreamReader.ReadLine` returns, one after another, until it
      returns null at the end of the text. */
  function Lines(text: string): (lines: seq<string>)
    ensures forall i :: 0 <= i < |lines| ==> NoLineBreak(lines[i])
    decreases |text|
  {
    if text == [] then []
    else
      var e := LineEnd(text);
      var n := NextLineStart(text);
      if n == |text| then [text[..e]] else [text[..e]] + Lines(text[n..])
  }

  /** A line followed by `\n` is read back as that line. */
  lemma LinesOfLine(line: string, rest: string)
    requires NoLineBreak(line)
    ensures Lines(line + "\n" + rest) == [line] + Lines(rest)
  {
    var text := line + "\n" + rest;
    LineEndOfLine(line, '\n', rest);
    assert text[..|line|] == line;
    assert text[|line| + 1..] == rest;
  }

  /** A line followed by `\r\n` is read back as that line: the pair is one
      line break. */
  lemma LinesOfCrLfLine(line: string, rest: string)
    requires NoLineBreak(line)
    ensures Lines(line + "\r\n" + rest) == [line] + Lines(rest)
  {
    var text := line + "\r\n" + rest;
    assert text == line + "\r" + ("\n" + rest);
    LineEndOfLine(line, '\r', "\n" + rest);
    assert text[..|line|] == line;
    assert text[|line| + 2..] == rest;
  }

  /** A line followed by a `\r` that does not start a `\r\n` is read back as
      that line. */
  lemma LinesOfCrLine(line: string, rest: string)
    requires NoLineBreak(line)
    requires rest == [] || rest[0] != '\n'
    ensures Lines(line + "\r" + rest) == [line] + Lines(rest)
  {
    var text := line + "\r" + rest;
    LineEndOfLine(line, '\r', rest);
    assert text[..|line|] == line;
    assert text[|line| + 1..] == rest;
  }

  /** A last line with no line break after it is read back as that line. */
  lemma LinesOfFinalLine(line: string)
    requires line != [] && NoLineBreak(line)
    ensures Lines(line) == [line]
  {
    LineEndOfUnbroken(line);
    assert line[..|line|] == line;
  }

  lemma {:induction false} LineEndOfLine(line: string, brk: char, rest: string)
    requires NoLineBreak(line) && IsLineBreak(brk)
    ensures LineEnd(line + [brk] + rest) == |line|
  {
    if line != [] {
      assert (line + [brk] + rest)[1..] == line[1..] + [brk] + rest;
      LineEndOfLine(line[1..], brk, rest);
    }
  }

  lemma {:induction false} LineEndOfUnbroken(line: string)
    requires NoLineBreak(line)
    ensures LineEnd(line) == |line|
  {
    if line != [] {
      LineEndOfUnbroken(line[1..]);
    }
  }

  /** A reader over a text, `StreamReader.ReadLine` one line at a time. */
  class LineReader {
    const text: string
    var position: nat

    constructor (text: string)
      ensures this.text == text && position == 0
    {
      this.text := text;
      position := 0;
    }

    /** The next line, or `None` (null) at the end of the text. */
    method ReadLine() returns (line: Option<string>)
      requires position <= |text|
      modifies this
      ensures position <= |text|
      ensures old(position) == |text| ==> line.None? && position == old(position)
      ensures old(position) < |text| ==>
                var rest := text[old(position)..];
                line == Some(rest[..LineEnd(rest)]) && position == old(position) + NextLineStart(rest)
    {
      if position == |text| {
        return None;
      }
      var rest := text[position..];
      var e := 0;
      while e < |rest| && !IsLineBreak(rest[e])
        invariant e <= |rest| && NoLineBreak(rest[..e])
        invariant LineEnd(rest[e..]) + e == LineEnd(rest)
      {
        assert rest[e..][1..] == rest[e + 1..];
        e := e + 1;
      }
      line := Some(rest[..e]);
      if e == |rest| {
        position := |text|;
      } else if rest[e] == '\r' && e + 1 < |rest| && rest[e + 1] == '\n' {
        position := position + e + 2;
      } else {
        position := position + e + 1;
      }
    }
  }

  // ============================================================ the two entry patterns

  /** The patterns `^(.*?)\s+(\w+)$` (an entry) and `^(.*?)\s(\w+)$` (an
      entry with exactly one white-space character before the id). */
  datatype EntryPattern = SpacesThenWord | SpaceThenWord

  /** The length of the run of white space that starts `u`. */
  function SpaceRun(u: string, cc: CharClasses): (r: nat)
    ensures r <= |u| && cc.AllSpace(u[..r])
    ensures r < |u| ==> !cc.isSpace(u[r])
  {
    if u != [] && cc.isSpace(u[0]) then
      var r := 1 + SpaceRun(u[1..], cc);
      assert u[..r] == [u[0]] + u[1..][..r - 1];
      r
    else 0
  }

  /** Does `u` match the part of the pattern after the lazy group, and if so,
      what is the id group? */
  function TailMatch(p: EntryPattern, u: string, cc: CharClasses): Option<string> {
    match p
    case SpacesThenWord =>
      var r := SpaceRun(u, cc);
      if 0 < r < |u| && cc.AllWord(u[r..]) then Some(u[r..]) else None
    case SpaceThenWord =>
      if 2 <= |u| && cc.isSpace(u[0]) && cc.AllWord(u[1..]) then Some(u[1..]) else None
  }

  /** The lazy group `(.*?)` tries the shortest name first: the first `g`
      from which the rest of the pattern matches, as long as `.` (anything
      but `\n`) can still cover the name. */
  function LazyMatch(p: EntryPattern, line: string, cc: CharClasses, g: nat): Option<(string, string)>
    requires g <= |line|
    decreases |line| - g
  {
    if g > 0 && line[g - 1] == '\n' then None
    else
      var tail := TailMatch(p, line[g..], cc);
      if tail.Some? then Some((line[..g], tail.value))
      else if g == |line| then None
      else LazyMatch(p, line, cc, g + 1)
  }

  /** The match of a whole line: its two groups, or `None`. */
  function Match(p: EntryPattern, line: string, cc: CharClasses): Option<(string, string)> {
    LazyMatch(p, line, cc, 0)
  }

  /** What a tail match looks like: white space (one character for the second
      pattern), then the id of word characters up to the end. */
  lemma TailMatchShape(p: EntryPattern, u: string, cc: CharClasses)
    requires TailMatch(p, u, cc).Some?
    ensures var id := TailMatch(p, u, cc).value;
            && 1 <= |id| < |u| && u[|u| - |id|..] == id && cc.AllWord(id)
            && cc.AllSpace(u[..|u| - |id|])
            && (p.SpaceThenWord? ==> |id| + 1 == |u|)
  {
    if p.SpaceThenWord? {
      assert u[..1] == [u[0]];
    }
  }

  /** White space in front of a matching tail still matches the first
      pattern, with the same id. */
  lemma TailMatchExtends(u: string, cc: CharClasses)
    requires u != []
    ensures cc.isSpace(u[0]) && TailMatch(SpacesThenWord, u[1..], cc).Some? ==>
              TailMatch(SpacesThenWord, u, cc) == TailMatch(SpacesThenWord, u[1..], cc)
  {
    if cc.isSpace(u[0]) {
      var v := u[1..];
      assert SpaceRun(u, cc) == 1 + SpaceRun(v, cc);
      assert u[SpaceRun(u, cc)..] == v[SpaceRun(v, cc)..];
    }
  }

  /** What a successful match of either pattern looks like: the name, a run
      of white space (exactly one character for the second pattern), and the
      id made of word characters up to the end; the name found by the first
      pattern does not end with white space, since a shorter name would have
      matched. */
  lemma {:induction false} LazyMatchShape(p: EntryPattern, line: string, cc: CharClasses, g: nat)
    requires g <= |line| && LazyMatch(p, line, cc, g).Some?
    ensures var name, id := LazyMatch(p, line, cc, g).value.0, LazyMatch(p, line, cc, g).value.1;
            && g <= |name| && |name| + |id| < |line| && line[..|name|] == name
            && TailMatch(p, line[|name|..], cc) == Some(id)
            && (p.SpacesThenWord? && g < |name| ==> !cc.isSpace(name[|name| - 1]))
    decreases |line| - g
  {
    var tail := TailMatch(p, line[g..], cc);
    if tail.Some? {
      TailMatchShape(p, line[g..], cc);
    } else {
      LazyMatchShape(p, line, cc, g + 1);
      var name := LazyMatch(p, line, cc, g).value.0;
      TailMatchExtends(line[g..], cc);
      assert line[g..][1..] == line[g + 1..];
      if |name| == g + 1 {
        assert name[|name| - 1] == line[g];
      }
    }
  }

  /** The name, white space and id of a line matched by either pattern. */
  lemma MatchShape(p: EntryPattern, line: string, cc: CharClasses)
    requires Match(p, line, cc).Some?
    ensures var name, id := Match(p, line, cc).value.0, Match(p, line, cc).value.1;
            && |name| + |id| < |line| && line[..|name|] == name && line[|line| - |id|..] == id
            && 1 <= |id| && cc.AllWord(id)
            && cc.AllSpace(line[|name|..|line| - |id|])
            && (p.SpaceThenWord? ==> |name| + 1 + |id| == |line|)
            && (p.SpacesThenWord? && 0 < |name| ==> !cc.isSpace(name[|name| - 1]))
  {
    LazyMatchShape(p, line, cc, 0);
    var name, id := Match(p, line, cc).value.0, Match(p, line, cc).value.1;
    SplitShape(p, line, |name|, id, cc);
  }

  /** A tail match after the first `nameLength` characters, seen in the
      whole line. */
  lemma SplitShape(p: EntryPattern, line: string, nameLength: nat, id: string, cc: CharClasses)
    requires nameLength <= |line| && TailMatch(p, line[nameLength..], cc) == Some(id)
    ensures nameLength + |id| < |line| && line[|line| - |id|..] == id
    ensures 1 <= |id| && cc.AllWord(id) && cc.AllSpace(line[nameLength..|line| - |id|])
    ensures p.SpaceThenWord? ==> nameLength + 1 + |id| == |line|
  {
    var u := line[nameLength..];
    TailMatchShape(p, u, cc);
    assert u[..|u| - |id|] == line[nameLength..|line| - |id|];
    assert u[|u| - |id|..] == line[|line| - |id|..];
  }

  /** Before the name ends, the first pattern's tail cannot match: the space
      run it would start is followed by white space again. */
  lemma NoEarlyTailMatch(line: string, nameLength: nat, cc: CharClasses, g: nat)
    requires cc.Valid() && g < nameLength < |line|
    requires !cc.isSpace(line[nameLength - 1]) && cc.isSpace(line[nameLength])
    ensures TailMatch(SpacesThenWord, line[g..], cc).None?
  {
    var u := line[g..];
    var r := SpaceRun(u, cc);
    if 0 < r {
      assert u[r..][nameLength - g - r] == line[nameLength];
    }
  }

  /** A line made of a name without `\n` that does not end with white space,
      a run of white space and an id matches the first pattern with exactly
      that name and id. */
  lemma {:induction false} SpacesThenWordMatches(line: string, nameLength: nat, idLength: nat, cc: CharClasses, g: nat)
    requires cc.Valid() && g <= nameLength && nameLength + idLength < |line| && 1 <= idLength
    requires '\n' !in line[..nameLength]
    requires nameLength == 0 || !cc.isSpace(line[nameLength - 1])
    requires cc.AllSpace(line[nameLength..|line| - idLength]) && cc.AllWord(line[|line| - idLength..])
    ensures LazyMatch(SpacesThenWord, line, cc, g) == Some((line[..nameLength], line[|line| - idLength..]))
    decreases nameLength - g
  {
    assert g > 0 ==> line[g - 1] != '\n' by {
      if g > 0 {
        assert line[..nameLength][g - 1] == line[g - 1];
      }
    }
    if g == nameLength {
      var spaces := line[nameLength..|line| - idLength];
      var id := line[|line| - idLength..];
      assert TailMatch(SpacesThenWord, line[g..], cc) == Some(id) by {
        var u := line[g..];
        assert u == spaces + id;
        SpaceRunOfSpaces(spaces, id, cc);
        assert u[|spaces|..] == id;
      }
    } else {
      assert TailMatch(SpacesThenWord, line[g..], cc).None? by {
        assert line[nameLength..|line| - idLength][0] == line[nameLength];
        NoEarlyTailMatch(line, nameLength, cc, g);
      }
      SpacesThenWordMatches(line, nameLength, idLength, cc, g + 1);
    }
  }

  lemma {:induction false} SpaceRunOfSpaces(spaces: string, id: string, cc: CharClasses)
    requires cc.Valid() && cc.AllSpace(spaces) && 1 <= |id| && cc.AllWord(id)
    ensures SpaceRun(spaces + id, cc) == |spaces|
  {
    if spaces == [] {
      assert (spaces + id)[0] == id[0];
    } else {
      assert (spaces + id)[1..] == spaces[1..] + id;
      SpaceRunOfSpaces(spaces[1..], id, cc);
    }
  }

  /** A line made of a name without `\n`, one white-space character and an
      id matches the second pattern with exactly that name and id. */
  lemma {:induction false} SpaceThenWordMatches(line: string, nameLength: nat, cc: CharClasses, g: nat)
    requires cc.Valid() && g <= nameLength && nameLength + 1 < |line|
    requires '\n' !in line[..nameLength]
    requires cc.isSpace(line[nameLength]) && cc.AllWord(line[nameLength + 1..])
    ensures LazyMatch(SpaceThenWord, line, cc, g) == Some((line[..nameLength], line[nameLength + 1..]))
    decreases nameLength - g
  {
    if g > 0 {
      assert line[..nameLength][g - 1] == line[g - 1];
    }
    if g == nameLength {
      assert line[g..][1..] == line[nameLength + 1..];
    } else {
      assert line[g..][1..][nameLength - g - 1] == line[nameLength];
      SpaceThenWordMatches(line, nameLength, cc, g + 1);
    }
  }

  // ============================================================ reading entries

  datatype ReadError =
    | Malformed(line: string)          // "Unable to read asset index entry"
    | SpacesAroundName(name: string)   // "Assets names cannot have empty spaces before or after the name"
    | BadObjectId(text: string)        // "Unable to decode objectId"

  datatype LineOutcome = Skip | Entry(url: string, id: ObjectId) | Error(error: ReadError)

  /** The checks on a trimmed line that is neither blank nor a comment. */
  function ParseEntry(t: string, cc: CharClasses, tryParse: string -> Option<ObjectId>): LineOutcome {
    var m := Match(SpacesThenWord, t, cc);
    if m.None? then Error(Malformed(t))
    else
      var url, objectIdStr := m.value.0, m.value.1;
      var space := Match(SpaceThenWord, t, cc);
      if space.Some? && space.value.0 != url then Error(SpacesAroundName(space.value.0))
      else
        var parsed := tryParse(objectIdStr);
        if parsed.None? then Error(BadObjectId(objectIdStr)) else Entry(url, parsed.value)
  }

  /** One pass of the `ReadEntries` loop over a line. */
  function ParseLine(line: string, cc: CharClasses, tryParse: string -> Option<ObjectId>): LineOutcome {
    var t := Trim(line, cc);
    if t == [] || t[0] == '#' then Skip else ParseEntry(t, cc, tryParse)
  }

  /** `entries` followed by what reading the rest gives. */
  function Prepend(entries: seq<(string, ObjectId)>, rest: Result<seq<(string, ObjectId)>, ReadError>): Result<seq<(string, ObjectId)>, ReadError> {
    if rest.Ok? then Ok(entries + rest.value) else rest
  }

  /** What one line contributes in front of what the rest of the lines give. */
  function Then(outcome: LineOutcome, rest: Result<seq<(string, ObjectId)>, ReadError>): Result<seq<(string, ObjectId)>, ReadError> {
    match outcome
    case Skip => rest
    case Error(e) => Err(e)
    case Entry(url, id) => Prepend([(url, id)], rest)
  }

  /** Every line in order; the first failing line fails the whole read. */
  function ReadAll(lines: seq<string>, cc: CharClasses, tryParse: string -> Option<ObjectId>): Result<seq<(string, ObjectId)>, ReadError> {
    if lines == [] then Ok([])
    else Then(ParseLine(lines[0], cc, tryParse), ReadAll(lines[1..], cc, tryParse))
  }

  /** Reading a text is reading its first line, then the text after it. */
  lemma ReadAllStep(text: string, cc: CharClasses, tryParse: string -> Option<ObjectId>)
    requires text != []
    ensures ReadAll(Lines(text), cc, tryParse) ==
              Then(ParseLine(text[..LineEnd(text)], cc, tryParse), ReadAll(Lines(text[NextLineStart(text)..]), cc, tryParse))
  {
    var lines := Lines(text);
    assert lines[0] == text[..LineEnd(text)];
    assert lines[1..] == Lines(text[NextLineStart(text)..]);
  }

  /** Entries gathered so far, then one more, then the rest. */
  lemma PrependOne(entries: seq<(string, ObjectId)>, entry: (string, ObjectId), rest: Result<seq<(string, ObjectId)>, ReadError>)
    ensures Prepend(entries, Prepend([entry], rest)) == Prepend(entries + [entry], rest)
  {
    if rest.Ok? {
      assert entries + ([entry] + rest.value) == (entries + [entry]) + rest.value;
    }
  }

  /** `ReadEntries(Stream)`: reads the stream line by line; `contents` is
      what the stream holds. */
  method ReadEntries(contents: string, cc: CharClasses, tryParse: string -> Option<ObjectId>) returns (r: Result<seq<(string, ObjectId)>, ReadError>)
    ensures r == ReadAll(Lines(contents), cc, tryParse)
  {
    var reader := new LineReader(contents);
    var entries := [];
    assert contents[0..] == contents;
    assert Prepend([], ReadAll(Lines(contents), cc, tryParse)) == ReadAll(Lines(contents), cc, tryParse) by {
      var all := ReadAll(Lines(contents), cc, tryParse);
      if all.Ok? {
        assert [] + all.value == all.value;
      }
    }
    while true
      invariant reader.text == contents && reader.position <= |contents|
      invariant ReadAll(Lines(contents), cc, tryParse) == Prepend(entries, ReadAll(Lines(contents[reader.position..]), cc, tryParse))
      decreases |contents| - reader.position
    {
      ghost var rest := contents[reader.position..];
      var line := reader.ReadLine();
      if line.None? {
        assert rest == [] && entries + [] == entries;
        break;
      }
      ghost var later := ReadAll(Lines(contents[reader.position..]), cc, tryParse);
      assert ReadAll(Lines(rest), cc, tryParse) == Then(ParseLine(line.value, cc, tryParse), later) by {
        assert rest[NextLineStart(rest)..] == contents[reader.position..];
        ReadAllStep(rest, cc, tryParse);
      }
      var outcome := ParseLine(line.value, cc, tryParse);
      if outcome.Skip? {
        continue;
      }
      if outcome.Error? {
        return Err(outcome.error);
      }
      PrependOne(entries, (outcome.url, outcome.id), later);
      entries := entries + [(outcome.url, outcome.id)];
    }
    r := Ok(entries);
  }

  /** After trimming, an empty line or a comment adds no entry. */
  lemma BlankAndCommentLinesAreSkipped(line: string, cc: CharClasses, tryParse: string -> Option<ObjectId>)
    requires Trim(line, cc) == [] || Trim(line, cc)[0] == '#'
    ensures ParseLine(line, cc, tryParse) == Skip
  {
  }

  lemma TrimmedHasNoLineBreak(line: string, cc: CharClasses)
    requires NoLineBreak(line)
    ensures '\n' !in Trim(line, cc)
  {
    var t := TrimStart(line, cc);
    assert forall i :: 0 <= i < |t| ==> t[i] == line[|line| - |t| + i];
    var r := TrimEnd(t, cc);
    assert forall i :: 0 <= i < |r| ==> r[i] == t[i];
  }

  /** When the second pattern does not find a different name, the first
      pattern's match has exactly one white-space character before the id;
      the name is not empty when the text does not start with white space. */
  lemma SingleGap(t: string, cc: CharClasses)
    requires cc.Valid() && '\n' !in t && t != [] && !cc.isSpace(t[0])
    requires Match(SpacesThenWord, t, cc).Some?
    requires Match(SpaceThenWord, t, cc).None? || Match(SpaceThenWord, t, cc).value.0 == Match(SpacesThenWord, t, cc).value.0
    ensures var url, id := Match(SpacesThenWord, t, cc).value.0, Match(SpacesThenWord, t, cc).value.1;
            && 1 <= |url| && |url| + 1 < |t| && t[..|url|] == url
            && !cc.isSpace(url[|url| - 1]) && cc.isSpace(t[|url|])
            && t[|url| + 1..] == id && cc.AllWord(id)
  {
    MatchShape(SpacesThenWord, t, cc);
    var url, id := Match(SpacesThenWord, t, cc).value.0, Match(SpacesThenWord, t, cc).value.1;
    var gapEnd := |t| - |id|;
    assert cc.isSpace(t[|url|]) by {
      assert t[|url|..gapEnd][0] == t[|url|];
    }
    if gapEnd - 1 > |url| {
      assert '\n' !in t[..gapEnd - 1];
      assert cc.isSpace(t[gapEnd - 1]) by {
        assert t[|url|..gapEnd][gapEnd - 1 - |url|] == t[gapEnd - 1];
      }
      assert t[gapEnd..] == t[gapEnd - 1 + 1..];
      SpaceThenWordMatches(t, gapEnd - 1, cc, 0);
      assert false;
    }
  }

  /** An accepted line is a name that does not end with white space, exactly
      one white-space character and an id that `TryParse` accepts. */
  lemma AcceptedLineShape(line: string, cc: CharClasses, tryParse: string -> Option<ObjectId>)
    requires cc.Valid() && NoLineBreak(line)
    requires ParseLine(line, cc, tryParse).Entry?
    ensures var t, url := Trim(line, cc), ParseLine(line, cc, tryParse).url;
            && 1 <= |url| && |url| + 1 < |t| && t[..|url|] == url
            && !cc.isSpace(url[|url| - 1]) && cc.isSpace(t[|url|])
            && cc.AllWord(t[|url| + 1..])
            && tryParse(t[|url| + 1..]) == Some(ParseLine(line, cc, tryParse).id)
  {
    TrimmedHasNoLineBreak(line, cc);
    AcceptedEntryShape(Trim(line, cc), cc, tryParse);
  }

  /** `AcceptedLineShape` for the trimmed text. */
  lemma AcceptedEntryShape(t: string, cc: CharClasses, tryParse: string -> Option<ObjectId>)
    requires cc.Valid() && '\n' !in t && t != [] && !cc.isSpace(t[0])
    requires ParseEntry(t, cc, tryParse).Entry?
    ensures var url := ParseEntry(t, cc, tryParse).url;
            && 1 <= |url| && |url| + 1 < |t| && t[..|url|] == url
            && !cc.isSpace(url[|url| - 1]) && cc.isSpace(t[|url|])
            && cc.AllWord(t[|url| + 1..])
            && tryParse(t[|url| + 1..]) == Some(ParseEntry(t, cc, tryParse).id)
  {
    SingleGap(t, cc);
  }

  /** More than one white-space character between the name and the id is
      refused as a name with white space around it. */
  lemma SeveralSpacesAreRefused(t: string, nameLength: nat, idLength: nat, cc: CharClasses, tryParse: string -> Option<ObjectId>)
    requires cc.Valid() && NoLineBreak(t)
    requires 1 <= nameLength && nameLength + 2 + idLength <= |t| && 1 <= idLength
    requires !cc.isSpace(t[0]) && !cc.isSpace(t[nameLength - 1]) && t[0] != '#'
    requires cc.AllSpace(t[nameLength..|t| - idLength]) && cc.AllWord(t[|t| - idLength..])
    ensures ParseLine(t, cc, tryParse) == Error(SpacesAroundName(t[..|t| - idLength - 1]))
  {
    var spaceAt := |t| - idLength - 1;
    assert Trim(t, cc) == t by {
      assert t[|t| - idLength..][idLength - 1] == t[|t| - 1];
      TrimOfTrimmed(t, cc);
    }
    assert Match(SpacesThenWord, t, cc) == Some((t[..nameLength], t[|t| - idLength..])) by {
      SpacesThenWordMatches(t, nameLength, idLength, cc, 0);
    }
    assert Match(SpaceThenWord, t, cc) == Some((t[..spaceAt], t[spaceAt + 1..])) by {
      assert t[nameLength..|t| - idLength][spaceAt - nameLength] == t[spaceAt];
      assert t[spaceAt + 1..] == t[|t| - idLength..];
      SpaceThenWordMatches(t, spaceAt, cc, 0);
    }
    assert |t[..spaceAt]| != |t[..nameLength]|;
    assert ParseLine(t, cc, tryParse) == ParseEntry(t, cc, tryParse);
  }

  /** A line of a name, one blank and an id text: both patterns match with
      that name and id. */
  lemma SingleSpaceLineMatches(name: string, id: string, cc: CharClasses)
    requires cc.Valid() && NoLineBreak(name)
    requires 1 <= |name| && !cc.isSpace(name[0]) && !cc.isSpace(name[|name| - 1])
    requires 1 <= |id| && cc.AllWord(id)
    ensures (name + " " + id)[0] == name[0]
    ensures Trim(name + " " + id, cc) == name + " " + id
    ensures Match(SpacesThenWord, name + " " + id, cc) == Some((name, id))
    ensures Match(SpaceThenWord, name + " " + id, cc) == Some((name, id))
  {
    var line := name + " " + id;
    assert line[0] == name[0];
    assert line[|line| - 1] == id[|id| - 1];
    assert line[..|name|] == name && line[|name| + 1..] == id;
    assert line[|name|..|line| - |id|] == " ";
    assert line[|name|] == ' ';
    TrimOfTrimmed(line, cc);
    SpacesThenWordMatches(line, |name|, |id|, cc, 0);
    SpaceThenWordMatches(line, |name|, cc, 0);
  }

  /** A trimmed line that both patterns match with the same groups is
      decided by `TryParse` alone. */
  lemma ParseSingleSpaceLine(line: string, name: string, id: string, cc: CharClasses, tryParse: string -> Option<ObjectId>)
    requires line != [] && line[0] != '#'
    requires Trim(line, cc) == line
    requires Match(SpacesThenWord, line, cc) == Some((name, id))
    requires Match(SpaceThenWord, line, cc) == Some((name, id))
    ensures ParseLine(line, cc, tryParse) ==
              match tryParse(id)
              case None => Error(BadObjectId(id))
              case Some(objectId) => Entry(name, objectId)
  {
    ParseLineOfUntrimmed(line, cc, tryParse);
    ParseEntryOfMatches(line, name, id, cc, tryParse);
  }

  lemma ParseLineOfUntrimmed(line: string, cc: CharClasses, tryParse: string -> Option<ObjectId>)
    requires line != [] && line[0] != '#'
    requires Trim(line, cc) == line
    ensures ParseLine(line, cc, tryParse) == ParseEntry(line, cc, tryParse)
  {
  }

  lemma ParseEntryOfMatches(t: string, name: string, id: string, cc: CharClasses, tryParse: string -> Option<ObjectId>)
    requires Match(SpacesThenWord, t, cc) == Some((name, id))
    requires Match(SpaceThenWord, t, cc) == Some((name, id))
    ensures ParseEntry(t, cc, tryParse) ==
              match tryParse(id)
              case None => Error(BadObjectId(id))
              case Some(objectId) => Entry(name, objectId)
  {
  }

  /** A line whose id text `TryParse` refuses makes reading fail. */
  lemma UnparsableIdIsRefused(name: string, id: string, cc: CharClasses, tryParse: string -> Option<ObjectId>)
    requires cc.Valid() && NoLineBreak(name)
    requires 1 <= |name| && !cc.isSpace(name[0]) && !cc.isSpace(name[|name| - 1]) && name[0] != '#'
    requires 1 <= |id| && cc.AllWord(id) && tryParse(id).None?
    ensures ParseLine(name + " " + id, cc, tryParse) == Error(BadObjectId(id))
  {
    SingleSpaceLineMatches(name, id, cc);
    ParseSingleSpaceLine(name + " " + id, name, id, cc, tryParse);
  }

  // ============================================================ writing entries

  /** A key the writer can emit so that it reads back: not empty, no white
      space at either end, no line break, and not starting a comment. */
  ghost predicate WritableKey(key: string, cc: CharClasses) {
    1 <= |key| && NoLineBreak(key) && !cc.isSpace(key[0]) && !cc.isSpace(key[|key| - 1]) && key[0] != '#'
  }

  /** The line `WriteEntry` emits. */
  function EntryLine(key: string, value: ObjectId, toString: ObjectId -> string): string {
    key + " " + toString(value) + "\n"
  }

  /** The text of a whole index written entry by entry. */
  function Written(entries: seq<(string, ObjectId)>, toString: ObjectId -> string): string {
    if entries == [] then "" else EntryLine(entries[0].0, entries[0].1, toString) + Written(entries[1..], toString)
  }

  /** A stream of text. The UTF-8 encoding of the characters is not part of
      this model. */
  class TextStream {
    var text: string

    constructor ()
      ensures text == ""
    {
      text := "";
    }
  }

  /** `WriteEntry`: `key value\n`. */
  method WriteEntry(stream: TextStream, key: string, value: ObjectId, toString: ObjectId -> string)
    modifies stream
    ensures stream.text == old(stream.text) + EntryLine(key, value, toString)
  {
    var line := key + " " + toString(value) + "\n";
    stream.text := stream.text + line;
  }

  /** A written line reads back as the same key and id, provided the id's
      text is word characters that `TryParse` turns back into the id. */
  lemma ParseWrittenLine(key: string, value: ObjectId, cc: CharClasses, tryParse: string -> Option<ObjectId>, toString: ObjectId -> string)
    requires cc.Valid() && WritableKey(key, cc)
    requires 1 <= |toString(value)| && cc.AllWord(toString(value)) && tryParse(toString(value)) == Some(value)
    ensures ParseLine(key + " " + toString(value), cc, tryParse) == Entry(key, value)
  {
    SingleSpaceLineMatches(key, toString(value), cc);
    ParseSingleSpaceLine(key + " " + toString(value), key, toString(value), cc, tryParse);
  }

  /** Reading what was written gives back the entries, in order. */
  lemma {:induction false} ReadWrittenEntries(entries: seq<(string, ObjectId)>, cc: CharClasses, tryParse: string -> Option<ObjectId>, toString: ObjectId -> string)
    requires cc.Valid()
    requires forall i :: 0 <= i < |entries| ==> WritableKey(entries[i].0, cc)
    requires forall i :: 0 <= i < |entries| ==>
               var text := toString(entries[i].1);
               1 <= |text| && cc.AllWord(text) && tryParse(text) == Some(entries[i].1)
    ensures ReadAll(Lines(Written(entries, toString)), cc, tryParse) == Ok(entries)
  {
    if entries != [] {
      var rest := Written(entries[1..], toString);
      assert ReadAll(Lines(Written(entries, toString)), cc, tryParse) == Prepend([entries[0]], ReadAll(Lines(rest), cc, tryParse)) by {
        ReadWrittenHead(entries[0].0, entries[0].1, rest, cc, tryParse, toString);
      }
      ReadWrittenEntries(entries[1..], cc, tryParse, toString);
      assert [entries[0]] + entries[1..] == entries;
    }
  }

  /** The first written line reads back as its entry, in front of the rest. */
  lemma ReadWrittenHead(key: string, value: ObjectId, rest: string, cc: CharClasses, tryParse: string -> Option<ObjectId>, toString: ObjectId -> string)
    requires cc.Valid() && WritableKey(key, cc)
    requires 1 <= |toString(value)| && cc.AllWord(toString(value)) && tryParse(toString(value)) == Some(value)
    ensures ReadAll(Lines(EntryLine(key, value, toString) + rest), cc, tryParse) == Prepend([(key, value)], ReadAll(Lines(rest), cc, tryParse))
  {
    var text := toString(value);
    var line := key + " " + text;
    assert NoLineBreak(line) by {
      assert forall i :: 0 <= i < |text| ==> cc.isWord(text[i]) && !cc.isSpace(text[i]);
    }
    assert EntryLine(key, value, toString) + rest == line + "\n" + rest;
    LinesOfLine(line, rest);
    ParseWrittenLine(key, value, cc, tryParse, toString);
    assert ([line] + Lines(rest))[1..] == Lines(rest);
  }

  // ============================================================ the merged view

  /** An unsaved value of the store, tagged with its transaction. */
  datatype UnsavedValue = UnsavedValue(transaction: int, value: ObjectId)

  /** `Select(x => (x.Key, x.Value.Value))`: the unsaved pairs without their tags. */
  function Untagged(unsaved: seq<(string, UnsavedValue)>): (r: seq<(string, ObjectId)>)
    ensures |r| == |unsaved|
    ensures forall i :: 0 <= i < |unsaved| ==> r[i] == (unsaved[i].0, unsaved[i].1.value)
  {
    if unsaved == [] then [] else [(unsaved[0].0, unsaved[0].1.value)] + Untagged(unsaved[1..])
  }

  /** `GetMergedIdMap`: every unsaved pair, then every loaded pair whose key is
      not among the unsaved ones. */
  function MergedIdMap(unsaved: seq<(string, UnsavedValue)>, loaded: seq<(string, ObjectId)>): seq<(string, ObjectId)> {
    Untagged(unsaved) + LoadedOnly(loaded, KeysOf(unsaved))
  }

  /** The loaded pairs whose key is not in `shadowed`, in order. */
  function LoadedOnly(loaded: seq<(string, ObjectId)>, shadowed: set<string>): (r: seq<(string, ObjectId)>)
    ensures forall i :: 0 <= i < |r| ==> r[i] in loaded && r[i].0 !in shadowed
    ensures forall i :: 0 <= i < |loaded| && loaded[i].0 !in shadowed ==> loaded[i] in r
  {
    if loaded == [] then []
    else
      var rest := LoadedOnly(loaded[1..], shadowed);
      assert forall i :: 0 <= i < |rest| ==> rest[i] in loaded[1..];
      if loaded[0].0 in shadowed then rest else [loaded[0]] + rest
  }

  /** `LoadedOnly` is the order-preserving filter: a single pair is kept
      exactly when its key is not shadowed, and filtering a concatenation
      filters each part and keeps them in order, so every kept pair stays
      where it was relative to the others, as often as it occurs. */
  lemma {:induction false} LoadedOnlyIsOrderedFilter(a: seq<(string, ObjectId)>, b: seq<(string, ObjectId)>, shadowed: set<string>)
    ensures forall p: (string, ObjectId) :: LoadedOnly([p], shadowed) == if p.0 in shadowed then [] else [p]
    ensures LoadedOnly(a + b, shadowed) == LoadedOnly(a, shadowed) + LoadedOnly(b, shadowed)
  {
    forall p: (string, ObjectId)
      ensures LoadedOnly([p], shadowed) == if p.0 in shadowed then [] else [p]
    {
      assert [p][1..] == [];
    }
    if a == [] {
      assert a + b == b;
    } else {
      assert (a + b)[1..] == a[1..] + b;
      LoadedOnlyIsOrderedFilter(a[1..], b, shadowed);
    }
  }

  /** Filtering keeps keys distinct. */
  lemma {:induction false} LoadedOnlyDistinct(loaded: seq<(string, ObjectId)>, shadowed: set<string>)
    requires DistinctKeys(loaded)
    ensures DistinctKeys(LoadedOnly(loaded, shadowed))
  {
    if loaded != [] {
      LoadedOnlyDistinct(loaded[1..], shadowed);
      var rest := LoadedOnly(loaded[1..], shadowed);
      forall i | 0 <= i < |rest|
        ensures rest[i].0 != loaded[0].0
      {
        var j :| 0 <= j < |loaded[1..]| && loaded[1..][j] == rest[i];
        assert loaded[j + 1] == rest[i];
      }
    }
  }

  /** In the merged view an unsaved value overrides the loaded value of the
      same key, a key only loaded appears with its loaded value, and nothing
      else appears. */
  lemma MergedIdMapOverrides(unsaved: seq<(string, UnsavedValue)>, loaded: seq<(string, ObjectId)>)
    ensures var merged := MergedIdMap(unsaved, loaded);
            && (forall i :: 0 <= i < |unsaved| ==> (unsaved[i].0, unsaved[i].1.value) in merged)
            && (forall i :: 0 <= i < |loaded| && loaded[i].0 !in KeysOf(unsaved) ==> loaded[i] in merged)
            && (forall i :: 0 <= i < |merged| && merged[i].0 in KeysOf(unsaved) ==>
                  i < |unsaved| && merged[i] == (unsaved[i].0, unsaved[i].1.value))
            && (forall i :: 0 <= i < |merged| && merged[i].0 !in KeysOf(unsaved) ==> merged[i] in loaded)
  {
    var keys := KeysOf(unsaved);
    var tagless, only := Untagged(unsaved), LoadedOnly(loaded, keys);
    var merged := tagless + only;
    assert merged == MergedIdMap(unsaved, loaded);
    forall i | 0 <= i < |unsaved|
      ensures (unsaved[i].0, unsaved[i].1.value) in merged
    {
      assert merged[i] == tagless[i];
    }
    forall i | 0 <= i < |loaded| && loaded[i].0 !in keys
      ensures loaded[i] in merged
    {
      var j :| 0 <= j < |only| && only[j] == loaded[i];
      assert merged[|unsaved| + j] == only[j];
    }
    forall i | 0 <= i < |merged|
      ensures merged[i].0 in keys ==> i < |unsaved| && merged[i] == (unsaved[i].0, unsaved[i].1.value)
      ensures merged[i].0 !in keys ==> merged[i] in loaded
    {
      if i < |unsaved| {
        assert merged[i] == tagless[i];
      } else {
        assert merged[i] == only[i - |unsaved|];
      }
    }
  }

  /** No key appears twice in the merged view when neither side repeats a key. */
  lemma MergedIdMapDistinct(unsaved: seq<(string, UnsavedValue)>, loaded: seq<(string, ObjectId)>)
    requires DistinctKeys(unsaved) && DistinctKeys(loaded)
    ensures DistinctKeys(MergedIdMap(unsaved, loaded))
  {
    var merged := MergedIdMap(unsaved, loaded);
    var only := LoadedOnly(loaded, KeysOf(unsaved));
    LoadedOnlyDistinct(loaded, KeysOf(unsaved));
    forall i, j | 0 <= i < j < |merged|
      ensures merged[i].0 != merged[j].0
    {
      if j >= |unsaved| {
        assert merged[j] == only[j - |unsaved|];
        if i < |unsaved| {
          assert merged[i].0 == unsaved[i].0;
        } else {
          assert merged[i] == only[i - |unsaved|];
        }
      }
    }
  }
}
