/** UTF-8 well-formedness, section 4 of RFC 3629. */
module Utf8 {
  type Byte = b: int | 0 <= b < 256

  const NEWLINE: Byte := 0x0A

  predicate IsTail(b: Byte) {
    0x80 <= b <= 0xBF
  }

  /** How many bytes the sequence at the front of `s` takes, or 0 when none is well formed. */
  function SequenceLength(s: seq<Byte>): (n: nat)
    ensures n <= |s| && n <= 4
  {
    if s == [] then 0
    else if s[0] <= 0x7F then 1
    else if |s| >= 2 && 0xC2 <= s[0] <= 0xDF && IsTail(s[1]) then 2
    else if |s| >= 3 && IsTail(s[1]) && IsTail(s[2]) && IsSecondOfThree(s[0], s[1]) then 3
    else if |s| >= 4 && IsTail(s[1]) && IsTail(s[2]) && IsTail(s[3]) && IsSecondOfFour(s[0], s[1]) then 4
    else 0
  }

  predicate IsSecondOfThree(first: Byte, second: Byte) {
    || (first == 0xE0 && 0xA0 <= second) || (0xE1 <= first <= 0xEC)
    || (first == 0xED && second <= 0x9F) || (0xEE <= first <= 0xEF)
  }

  predicate IsSecondOfFour(first: Byte, second: Byte) {
    (first == 0xF0 && 0x90 <= second) || (0xF1 <= first <= 0xF3) || (first == 0xF4 && second <= 0x8F)
  }

  predicate Valid(s: seq<Byte>) {
    s == [] || (SequenceLength(s) > 0 && Valid(s[SequenceLength(s)..]))
  }

  /** Every byte of a longer sequence has its top bit set. */
  lemma LongSequenceBytes(s: seq<Byte>, i: nat)
    ensures i < SequenceLength(s) && SequenceLength(s) > 1 ==> s[i] >= 0x80
  {
  }

  /** A newline is never inside a longer sequence, so cutting after one cuts between characters. */
  lemma {:induction false} SplitAfterNewline(a: seq<Byte>, b: seq<Byte>)
    requires a == [] || a[|a| - 1] == NEWLINE
    ensures Valid(a + b) <==> Valid(a) && Valid(b)
  {
    if a == [] {
      assert a + b == b;
    } else {
      var n := SequenceLength(a + b);
      assert (a + b)[|a| - 1] == NEWLINE;
      LongSequenceBytes(a + b, |a| - 1);
      assert n <= |a| && (n > 0 ==> (a + b)[n..] == a[n..] + b);
      assert SequenceLength(a) == n;
      if n > 0 { SplitAfterNewline(a[n..], b); }
    }
  }

  lemma MiddleValid(before: seq<Byte>, middle: seq<Byte>, after: seq<Byte>)
    requires Valid(before + (middle + after))
    requires before == [] || before[|before| - 1] == NEWLINE
    requires after == [] || middle == [] || middle[|middle| - 1] == NEWLINE
    ensures Valid(middle)
  {
    SplitAfterNewline(before, middle + after);
    if after == [] {
      assert middle + after == middle;
    } else {
      SplitAfterNewline(middle, after);
    }
  }
}

/** The line window of a file read: from a marker, to a marker, at most so many lines. */
module Seek {
  import opened Wrappers
  import opened Utf8

  type Text = seq<Byte>

  /** The placeholder in an end marker that stands for whichever start marker matched:
      "$seek_from_line_starts_with". */
  const FROM_META: Text :=
    [36, 115, 101, 101, 107, 95, 102, 114, 111, 109, 95, 108, 105, 110, 101, 95,
     115, 116, 97, 114, 116, 115, 95, 119, 105, 116, 104]

  datatype Filter = Filter(from: Option<seq<Text>>, to: Option<seq<Text>>, maximum: Option<nat>)

  datatype Parameter = From | To

  datatype Rejection = NoPrefix(parameter: Parameter) | EmptyPrefix(parameter: Parameter) | MetaWithoutFrom | ZeroMaximum

  predicate StartsWith(s: Text, prefix: Text) {
    prefix <= s
  }

  predicate Contains(s: Text, pattern: Text) {
    exists i | 0 <= i <= |s| :: StartsWith(s[i..], pattern)
  }

  /** What a filter must be for the scan: no list empty or holding an empty prefix, no placeholder with nothing to
      stand for, no cap of zero. */
  predicate WellFormed(filter: Filter) {
    && (filter.from.Some? ==> filter.from.value != [] && [] !in filter.from.value)
    && (filter.to.Some? ==> filter.to.value != [] && [] !in filter.to.value)
    && (filter.from.None? && filter.to.Some? ==> forall p | p in filter.to.value :: !Contains(p, FROM_META))
    && filter.maximum != Some(0)
  }

  /** `build`. */
  method Build(from: Option<seq<Text>>, to: Option<seq<Text>>, maximum: Option<nat>)
    returns (r: Result<Filter, Rejection>)
    ensures r.Ok? <==> WellFormed(Filter(from, to, maximum))
    ensures r.Ok? ==> r.value == Filter(from, to, maximum)
    ensures r == Err(ZeroMaximum) ==> maximum == Some(0)
    ensures r == Err(MetaWithoutFrom) ==> from.None? && to.Some? && exists p | p in to.value :: Contains(p, FROM_META)
  {
    var lists := [(from, From), (to, To)];
    for i := 0 to 2
      invariant forall j | 0 <= j < i :: lists[j].0.Some? ==> lists[j].0.value != [] && [] !in lists[j].0.value
    {
      var (prefixes, parameter) := lists[i];
      if prefixes.None? {
        continue;
      }
      if prefixes.value == [] {
        assert lists[i].0.value == [];
        return Err(NoPrefix(parameter));
      }
      if exists p | p in prefixes.value :: p == [] {
        assert [] in lists[i].0.value;
        return Err(EmptyPrefix(parameter));
      }
    }
    assert from == lists[0].0 && to == lists[1].0;
    if from.None? && to.Some? && exists p | p in to.value :: Contains(p, FROM_META) {
      return Err(MetaWithoutFrom);
    }
    if maximum == Some(0) {
      return Err(ZeroMaximum);
    }
    return Ok(Filter(from, to, maximum));
  }

  // Lines

  /** The length of the first line, its terminator included. */
  function LineLength(s: Text): (n: nat)
    requires s != []
    ensures 0 < n <= |s|
  {
    if s[0] == NEWLINE || |s| == 1 then 1 else 1 + LineLength(s[1..])
  }

  /** A line runs to its first newline, or to the end of the text. */
  lemma {:induction false} LineStops(s: Text)
    requires s != []
    ensures forall i | 0 <= i < LineLength(s) - 1 :: s[i] != NEWLINE
    ensures LineLength(s) == |s| || s[LineLength(s) - 1] == NEWLINE
  {
    if !(s[0] == NEWLINE || |s| == 1) {
      LineStops(s[1..]);
      assert forall i | 0 < i < |s| :: s[i] == s[1..][i - 1];
    }
  }

  function Lines(s: Text): seq<Text> {
    if s == [] then [] else [s[..LineLength(s)]] + Lines(s[LineLength(s)..])
  }

  /** The text of the lines from one number up to another. */
  function Run(lines: seq<Text>, from: nat, to: nat): Text
    requires to <= |lines|
  {
    if to <= from then [] else Run(lines, from, to - 1) + lines[to - 1]
  }

  lemma {:induction false} RunSplit(lines: seq<Text>, i: nat, j: nat, k: nat)
    requires i <= j <= k <= |lines|
    ensures Run(lines, i, k) == Run(lines, i, j) + Run(lines, j, k)
    decreases k
  {
    if j < k { RunSplit(lines, i, j, k - 1); }
  }

  /** The lines from number `n` on are a sequence of their own. */
  lemma {:induction false} RunDrop(lines: seq<Text>, n: nat, k: nat)
    requires n + k <= |lines|
    ensures Run(lines[n..], 0, k) == Run(lines, n, n + k)
  {
    if k > 0 { RunDrop(lines, n, k - 1); }
  }

  /** All lines together are the text. */
  lemma {:induction false} LinesRun(s: Text)
    ensures Run(Lines(s), 0, |Lines(s)|) == s
  {
    if s != [] {
      var rest := s[LineLength(s)..];
      LinesRun(rest);
      assert Lines(s)[1..] == Lines(rest);
      RunDrop(Lines(s), 1, |Lines(rest)|);
      RunSplit(Lines(s), 0, 1, |Lines(s)|);
      assert Run(Lines(s), 0, 1) == Run(Lines(s), 0, 0) + Lines(s)[0];
    }
  }

  /** Every line but the last ends in a newline. */
  lemma {:induction false} LineEnds(s: Text, n: nat)
    requires n < |Lines(s)|
    ensures Lines(s)[n] != []
    ensures n < |Lines(s)| - 1 ==> Lines(s)[n][|Lines(s)[n]| - 1] == NEWLINE
  {
    LineStops(s);
    if n > 0 { LineEnds(s[LineLength(s)..], n - 1); }
  }

  /** A run of whole lines, short of the last, ends in a newline. */
  lemma RunEnds(s: Text, i: nat, j: nat)
    requires i <= j < |Lines(s)|
    ensures var run := Run(Lines(s), i, j); run == [] || run[|run| - 1] == NEWLINE
  {
    if i < j { LineEnds(s, j - 1); }
  }

  /** Reading one line takes one off the lines to come. */
  lemma ReadLine(lines: seq<Text>, n: nat, rest: Text)
    requires n <= |lines| && Lines(rest) == lines[n..] && rest != []
    ensures n < |lines| && lines[n] == rest[..LineLength(rest)] && Lines(rest[LineLength(rest)..]) == lines[n + 1..]
  {
    assert lines[n..][1..] == lines[n + 1..];
  }

  // The window

  predicate MatchesAny(line: Text, prefixes: seq<Text>) {
    exists p | p in prefixes :: StartsWith(line, p)
  }

  /** The first prefix, in the given order, that the line starts with. */
  function FirstMatch(line: Text, prefixes: seq<Text>): (p: Option<Text>)
    ensures p.Some? <==> MatchesAny(line, prefixes)
    ensures p.Some? ==> p.value in prefixes && StartsWith(line, p.value)
  {
    if prefixes == [] then None
    else if StartsWith(line, prefixes[0]) then Some(prefixes[0])
    else FirstMatch(line, prefixes[1..])
  }

  function Replaced(s: Text, pattern: Text, spelling: Text): Text
    requires pattern != []
  {
    if s == [] then []
    else if StartsWith(s, pattern) then spelling + Replaced(s[|pattern|..], pattern, spelling)
    else [s[0]] + Replaced(s[1..], pattern, spelling)
  }

  function Resolved(prefixes: seq<Text>, matched: Text): seq<Text> {
    seq(|prefixes|, i requires 0 <= i < |prefixes| => Replaced(prefixes[i], FROM_META, matched))
  }

  /** The end markers once the window opened on `line`. */
  function EndMarkers(filter: Filter, line: Text): Option<seq<Text>> {
    if filter.from.None? || filter.to.None? then filter.to
    else
      var matched := FirstMatch(line, filter.from.value);
      if matched.None? then filter.to
      else Some(Resolved(filter.to.value, matched.value))
  }

  // What an end marker stands for

  function Joined(pieces: seq<Text>, separator: Text): Text
    requires pieces != []
  {
    if |pieces| == 1 then pieces[0] else pieces[0] + separator + Joined(pieces[1..], separator)
  }

  predicate Free(pieces: seq<Text>, pattern: Text) {
    forall p | p in pieces :: !Contains(p, pattern)
  }

  /** The pattern cannot overlap itself: its first byte is nowhere else in it. */
  predicate Unbordered(pattern: Text) {
    pattern != [] && forall i | 0 < i < |pattern| :: pattern[i] != pattern[0]
  }

  lemma ContainsTail(p: Text, pattern: Text)
    requires p != [] && !Contains(p, pattern)
    ensures !Contains(p[1..], pattern) && !StartsWith(p, pattern)
  {
    assert p[0..] == p;
    forall i | 0 <= i <= |p[1..]|
      ensures !StartsWith(p[1..][i..], pattern)
    {
      assert p[1..][i..] == p[i + 1..];
    }
  }

  lemma {:induction false} ReplacedNowhere(p: Text, pattern: Text, spelling: Text)
    requires pattern != [] && !Contains(p, pattern)
    ensures Replaced(p, pattern, spelling) == p
  {
    if p != [] {
      ContainsTail(p, pattern);
      ReplacedNowhere(p[1..], pattern, spelling);
    }
  }

  lemma NotYet(p: Text, rest: Text, pattern: Text)
    requires Unbordered(pattern) && p != [] && !StartsWith(p, pattern)
    ensures !StartsWith(p + pattern + rest, pattern)
  {
    var s := p + pattern + rest;
    if |pattern| <= |p| {
      assert s[..|pattern|] == p[..|pattern|];
    } else {
      assert s[..|pattern|][|p|] == s[|p|] == pattern[0];
    }
  }

  lemma {:induction false} ReplacedFirst(p: Text, rest: Text, pattern: Text, spelling: Text)
    requires Unbordered(pattern) && !Contains(p, pattern)
    ensures Replaced(p + pattern + rest, pattern, spelling) == p + spelling + Replaced(rest, pattern, spelling)
  {
    var s := p + pattern + rest;
    if p == [] {
      assert s == pattern + rest && s[|pattern|..] == rest;
    } else {
      ContainsTail(p, pattern);
      NotYet(p, rest, pattern);
      assert s[1..] == p[1..] + pattern + rest;
      ReplacedFirst(p[1..], rest, pattern, spelling);
      assert p == [p[0]] + p[1..];
      assert [s[0]] + (p[1..] + spelling + Replaced(rest, pattern, spelling)) == p + spelling + Replaced(rest, pattern, spelling);
    }
  }

  /** Every occurrence is replaced and nothing else: the pieces between them stay. */
  lemma {:induction false} ReplacedBetween(pieces: seq<Text>, pattern: Text, spelling: Text)
    requires pieces != [] && Unbordered(pattern) && Free(pieces, pattern)
    ensures Replaced(Joined(pieces, pattern), pattern, spelling) == Joined(pieces, spelling)
  {
    assert pieces[0] in pieces;
    if |pieces| == 1 {
      ReplacedNowhere(pieces[0], pattern, spelling);
    } else {
      assert forall p | p in pieces[1..] :: p in pieces;
      ReplacedBetween(pieces[1..], pattern, spelling);
      ReplacedFirst(pieces[0], Joined(pieces[1..], pattern), pattern, spelling);
    }
  }

  /** Any text falls into such pieces. */
  lemma {:induction false} FallsIntoPieces(s: Text, pattern: Text) returns (pieces: seq<Text>)
    requires pattern != []
    ensures pieces != [] && Free(pieces, pattern) && Joined(pieces, pattern) == s
    decreases |s|
  {
    if s == [] {
      pieces := [[]];
    } else if StartsWith(s, pattern) {
      var rest := FallsIntoPieces(s[|pattern|..], pattern);
      pieces := [[]] + rest;
      assert pieces[1..] == rest && s == [] + pattern + s[|pattern|..];
    } else {
      var rest := FallsIntoPieces(s[1..], pattern);
      var first := [s[0]] + rest[0];
      pieces := [first] + rest[1..];
      assert pieces[1..] == rest[1..];
      assert |rest| > 1 ==> first + pattern + Joined(rest[1..], pattern) == [s[0]] + (rest[0] + pattern + Joined(rest[1..], pattern));
      FirstPieceFree(s, first, rest[0], pattern);
      assert forall p | p in pieces :: p == first || p in rest;
    }
  }

  lemma FirstPieceFree(s: Text, first: Text, tail: Text, pattern: Text)
    requires pattern != [] && s != [] && first == [s[0]] + tail && first <= s
    requires !StartsWith(s, pattern) && !Contains(tail, pattern)
    ensures !Contains(first, pattern)
  {
    forall i | 0 <= i <= |first|
      ensures !StartsWith(first[i..], pattern)
    {
      if i == 0 {
        assert first[0..] == first && first == s[..|first|];
      } else {
        assert first[i..] == tail[i - 1..];
      }
    }
  }

  /** The end markers once the window opened on `line`: each placeholder in them is the first `from` prefix, in the given
      order, that the line starts with, and the text around it stays. */
  lemma MarkerSpelled(filter: Filter, line: Text, k: nat, i: nat, pieces: seq<Text>)
    requires filter.from.Some? && filter.to.Some? && k < |filter.from.value| && i < |filter.to.value|
    requires StartsWith(line, filter.from.value[k]) && forall j | 0 <= j < k :: !StartsWith(line, filter.from.value[j])
    requires pieces != [] && Free(pieces, FROM_META) && filter.to.value[i] == Joined(pieces, FROM_META)
    ensures var markers := EndMarkers(filter, line);
      markers.Some? && |markers.value| == |filter.to.value| && markers.value[i] == Joined(pieces, filter.from.value[k])
  {
    FirstMatchIs(line, filter.from.value, k);
    MetaUnbordered();
    ReplacedBetween(pieces, FROM_META, filter.from.value[k]);
  }

  lemma MetaUnbordered()
    ensures Unbordered(FROM_META)
  {
  }

  lemma {:induction false} FirstMatchIs(line: Text, prefixes: seq<Text>, k: nat)
    requires k < |prefixes| && StartsWith(line, prefixes[k]) && forall j | 0 <= j < k :: !StartsWith(line, prefixes[j])
    ensures FirstMatch(line, prefixes) == Some(prefixes[k])
  {
    if k > 0 {
      assert !StartsWith(line, prefixes[0]);
      FirstMatchIs(line, prefixes[1..], k - 1);
    }
  }

  predicate Opens(filter: Filter, line: Text) {
    filter.from.Some? ==> MatchesAny(line, filter.from.value)
  }

  predicate Closes(filter: Filter, first: Text, line: Text) {
    EndMarkers(filter, first).Some? && MatchesAny(line, EndMarkers(filter, first).value)
  }

  /** The declared window, as line numbers: it starts at the first opening line, runs over lines that do not close
      it, holds no more than the cap, and stops only at a closing line, at the cap or at the end of the file. */
  ghost predicate IsWindow(filter: Filter, lines: seq<Text>, first: nat, count: nat) {
    if count == 0 then first == |lines| && forall i | 0 <= i < |lines| :: !Opens(filter, lines[i])
    else
      && first + count <= |lines| && Opens(filter, lines[first])
      && (forall i | 0 <= i < first :: !Opens(filter, lines[i]))
      && (forall i | first < i < first + count - 1 :: !Closes(filter, lines[first], lines[i]))
      && (filter.maximum.Some? ==> count <= filter.maximum.value)
      && (first + count == |lines| || Stopped(filter, lines, first, count))
  }

  /** The scan knows the window is complete without reaching the end of the file. */
  ghost predicate Stopped(filter: Filter, lines: seq<Text>, first: nat, count: nat) {
    && 0 < count && first + count <= |lines|
    && (filter.maximum == Some(count) || (count > 1 && Closes(filter, lines[first], lines[first + count - 1])))
  }

  /** Before its last line a window holds no closing line. */
  lemma Unclosed(filter: Filter, lines: seq<Text>, first: nat, count: nat, longer: nat)
    requires IsWindow(filter, lines, first, longer)
    ensures 1 < count < longer ==> !Closes(filter, lines[first], lines[first + count - 1])
  {
  }

  /** There is only one such window. */
  lemma WindowUnique(filter: Filter, lines: seq<Text>, first: nat, count: nat, first': nat, count': nat)
    requires IsWindow(filter, lines, first, count) && IsWindow(filter, lines, first', count')
    ensures first == first' && count == count'
  {
    Unclosed(filter, lines, first, count', count);
    Unclosed(filter, lines, first', count, count');
  }

  /** Without a filter the window is the file. */
  lemma NoFilterKeepsAll(content: Text, first: nat, count: nat)
    requires IsWindow(Filter(None, None, None), Lines(content), first, count)
    ensures Run(Lines(content), first, first + count) == content
  {
    LinesRun(content);
    assert |Lines(content)| > 0 ==> Opens(Filter(None, None, None), Lines(content)[0]);
  }

  /** Where a run of whole lines sits in a file: between two cuts made after newlines. */
  lemma RunInFile(content: Text, i: nat, j: nat) returns (before: Text, run: Text, after: Text)
    requires i < j <= |Lines(content)|
    ensures run == Run(Lines(content), i, j) && content == before + (run + after)
    ensures before == [] || before[|before| - 1] == NEWLINE
    ensures after == [] || run == [] || run[|run| - 1] == NEWLINE
  {
    var lines := Lines(content);
    before, run, after := Run(lines, 0, i), Run(lines, i, j), Run(lines, j, |lines|);
    LinesRun(content);
    RunSplit(lines, 0, i, |lines|);
    RunSplit(lines, i, j, |lines|);
    RunEnds(content, 0, i);
    if j < |lines| { RunEnds(content, i, j); }
  }

  /** Of a well-formed file every window is well formed. */
  lemma WindowIsUtf8(content: Text, first: nat, count: nat)
    requires Valid(content) && first + count <= |Lines(content)|
    ensures Valid(Run(Lines(content), first, first + count))
  {
    if count > 0 {
      var before, run, after := RunInFile(content, first, first + count);
      MiddleValid(before, run, after);
    }
  }

  /** The scan after `n` lines, none of which ended it. */
  ghost predicate Scanning(filter: Filter, lines: seq<Text>, n: nat, first: nat, count: nat, inWindow: bool,
                           to: Option<seq<Text>>) {
    && first + count == n <= |lines|
    && (forall i | 0 <= i < first :: !Opens(filter, lines[i]))
    && (count == 0 ==> (inWindow <==> filter.from.None?) && (inWindow ==> first == 0 && to == filter.to))
    && (count > 0 ==> inWindow && Opens(filter, lines[first]) && to == EndMarkers(filter, lines[first]))
    && (count > 0 ==> forall i | first < i < n :: !Closes(filter, lines[first], lines[i]))
    && (filter.maximum.Some? ==> count < filter.maximum.value)
  }

  lemma LineSkipped(filter: Filter, lines: seq<Text>, first: nat, to: Option<seq<Text>>)
    requires Scanning(filter, lines, first, first, 0, false, to) && first < |lines| && !Opens(filter, lines[first])
    ensures Scanning(filter, lines, first + 1, first + 1, 0, false, to)
  {
  }

  /** A line taken into the window either ends the scan with the declared window or keeps it going. */
  lemma LineTaken(filter: Filter, lines: seq<Text>, first: nat, count: nat, inWindow: bool,
                  to: Option<seq<Text>>, to': Option<seq<Text>>, closed: bool)
    requires WellFormed(filter) && Scanning(filter, lines, first + count, first, count, inWindow, to)
    requires first + count < |lines|
    requires inWindow || Opens(filter, lines[first])
    requires to' == if inWindow then to else EndMarkers(filter, lines[first])
    requires closed == (inWindow && count > 0 && to.Some? && MatchesAny(lines[first + count], to.value))
    ensures if closed || filter.maximum == Some(count + 1)
            then Stopped(filter, lines, first, count + 1) && IsWindow(filter, lines, first, count + 1)
            else Scanning(filter, lines, first + count + 1, first, count + 1, true, to')
  {
  }

  lemma FileEnded(filter: Filter, lines: seq<Text>, first: nat, count: nat, inWindow: bool, to: Option<seq<Text>>)
    requires Scanning(filter, lines, first + count, first, count, inWindow, to) && first + count == |lines|
    ensures IsWindow(filter, lines, first, count)
  {
  }

  /** What was read and what is left make up the file. */
  lemma ReadSoFar(content: Text, n: nat, rest: Text)
    requires n <= |Lines(content)| && Lines(rest) == Lines(content)[n..]
    ensures |content| - |rest| == |Run(Lines(content), 0, n)|
  {
    var lines := Lines(content);
    LinesRun(content);
    LinesRun(rest);
    RunDrop(lines, n, |lines| - n);
    RunSplit(lines, 0, n, |lines|);
  }

  /** The decision on one line: whether the window holds it, and whether it is the window's end marker. */
  method Inspect(filter: Filter, line: Text, linesTaken: nat, inWindow: bool, to: Option<seq<Text>>)
    returns (inWindow': bool, to': Option<seq<Text>>, closed: bool)
    requires inWindow || filter.from.Some?
    ensures inWindow' == (inWindow || Opens(filter, line))
    ensures to' == if inWindow || !inWindow' then to else EndMarkers(filter, line)
    ensures closed == (inWindow && linesTaken > 0 && to.Some? && MatchesAny(line, to.value))
  {
    inWindow', to', closed := inWindow, to, false;
    if !inWindow {
      var matched := FirstMatch(line, filter.from.value);
      if matched.Some? {
        inWindow' := true;
        to' := if filter.to.None? then None else Some(Resolved(filter.to.value, matched.value));
      }
    } else if linesTaken > 0 {
      if to.Some? && MatchesAny(line, to.value) {
        closed := true;
      }
    }
  }

  /** Line by line: the window is the declared one, and `read` bytes were taken from the reader, none past the
      window's last line when the scan could tell the window was complete. */
  ghost predicate ScansAs(filter: Filter, content: Text, first: nat, count: nat, window: Text, read: nat) {
    var lines := Lines(content);
    && IsWindow(filter, lines, first, count) && window == Run(lines, first, first + count)
    && read == if Stopped(filter, lines, first, count) then |Run(lines, 0, first + count)| else |content|
  }

  ghost predicate IsScan(filter: Filter, content: Text, window: Text, read: nat) {
    exists first: nat, count: nat :: ScansAs(filter, content, first, count, window, read)
  }

  /** What a scan returns and how far it reads are settled by the filter and the content. */
  lemma ScanUnique(filter: Filter, content: Text, window: Text, read: nat, window': Text, read': nat)
    requires IsScan(filter, content, window, read) && IsScan(filter, content, window', read')
    ensures window == window' && read == read'
  {
    var first: nat, count: nat :| ScansAs(filter, content, first, count, window, read);
    var first': nat, count': nat :| ScansAs(filter, content, first', count', window', read');
    ScansAsUnique(filter, content, first, count, window, read, first', count', window', read');
  }

  lemma ScansAsUnique(filter: Filter, content: Text, first: nat, count: nat, window: Text, read: nat,
                      first': nat, count': nat, window': Text, read': nat)
    requires ScansAs(filter, content, first, count, window, read)
    requires ScansAs(filter, content, first', count', window', read')
    ensures window == window' && read == read'
  {
    WindowUnique(filter, Lines(content), first, count, first', count');
  }

  lemma ScanOfUtf8(filter: Filter, content: Text, window: Text, read: nat)
    requires Valid(content) && IsScan(filter, content, window, read)
    ensures Valid(window)
  {
    var first: nat, count: nat :| ScansAs(filter, content, first, count, window, read);
    WindowIsUtf8(content, first, count);
  }

  /** `apply_reader`: the scanned window, if it is text; of content that is text, it always is. */
  method ApplyReader(filter: Filter, content: Text) returns (r: Result<Text, ()>, read: nat)
    requires WellFormed(filter)
    ensures exists window :: IsScan(filter, content, window, read) && r == if Valid(window) then Ok(window) else Err(())
    ensures Valid(content) ==> r.Ok?
  {
    var window: Text;
    window, read := Scan(filter, content);
    r := if Valid(window) then Ok(window) else Err(());
    if Valid(content) { ScanOfUtf8(filter, content, window, read); }
  }

  /** The scan's variables between two lines, with what is left of the reader. */
  datatype Progress = Progress(rest: Text, window: Text, linesTaken: nat, inWindow: bool, to: Option<seq<Text>>)

  ghost predicate Underway(filter: Filter, lines: seq<Text>, p: Progress, first: nat) {
    && Scanning(filter, lines, first + p.linesTaken, first, p.linesTaken, p.inWindow, p.to)
    && Lines(p.rest) == lines[first + p.linesTaken..] && p.window == Run(lines, first, first + p.linesTaken)
  }

  ghost predicate Complete(filter: Filter, lines: seq<Text>, p: Progress, first: nat) {
    && IsWindow(filter, lines, first, p.linesTaken) && Stopped(filter, lines, first, p.linesTaken)
    && Lines(p.rest) == lines[first + p.linesTaken..] && p.window == Run(lines, first, first + p.linesTaken)
  }

  lemma SkipKeeps(filter: Filter, lines: seq<Text>, p: Progress, first: nat)
    requires Underway(filter, lines, p, first) && p.rest != [] && !p.inWindow
    requires !Opens(filter, p.rest[..LineLength(p.rest)])
    ensures Underway(filter, lines, p.(rest := p.rest[LineLength(p.rest)..]), first + 1)
  {
    ReadLine(lines, first + p.linesTaken, p.rest);
    LineSkipped(filter, lines, first, p.to);
  }

  /** The bookkeeping of a taken line. */
  lemma TakenText(lines: seq<Text>, first: nat, taken: nat, rest: Text)
    requires first + taken <= |lines| && Lines(rest) == lines[first + taken..] && rest != []
    ensures var line := rest[..LineLength(rest)];
      && first + taken < |lines| && line == lines[first + taken]
      && Lines(rest[LineLength(rest)..]) == lines[first + (taken + 1)..]
      && Run(lines, first, first + taken) + line == Run(lines, first, first + (taken + 1))
  {
    ReadLine(lines, first + taken, rest);
  }

  lemma TakeKeeps(filter: Filter, lines: seq<Text>, p: Progress, first: nat, to: Option<seq<Text>>, closed: bool)
    requires WellFormed(filter) && Underway(filter, lines, p, first) && p.rest != []
    requires var line := p.rest[..LineLength(p.rest)];
      && (p.inWindow || Opens(filter, line))
      && to == (if p.inWindow then p.to else EndMarkers(filter, line))
      && closed == (p.inWindow && p.linesTaken > 0 && p.to.Some? && MatchesAny(line, p.to.value))
    ensures var line := p.rest[..LineLength(p.rest)];
      var q := Progress(p.rest[LineLength(p.rest)..], p.window + line, p.linesTaken + 1, true, to);
      if closed || filter.maximum == Some(q.linesTaken) then Complete(filter, lines, q, first)
      else Underway(filter, lines, q, first)
  {
    TakenText(lines, first, p.linesTaken, p.rest);
    assert p.inWindow || Opens(filter, lines[first]);
    LineTaken(filter, lines, first, p.linesTaken, p.inWindow, p.to, to, closed);
  }

  /** One turn of the loop of `apply_reader`: a line is read, and skipped or taken. */
  method ScanLine(filter: Filter, ghost lines: seq<Text>, p: Progress, ghost first: nat)
    returns (q: Progress, more: bool, ghost first': nat)
    requires WellFormed(filter) && Underway(filter, lines, p, first) && p.rest != []
    ensures if more then Underway(filter, lines, q, first') else Complete(filter, lines, q, first')
    ensures |q.rest| < |p.rest|
  {
    var line := p.rest[..LineLength(p.rest)];
    var rest := p.rest[LineLength(p.rest)..];
    var inWindow, to, closed := Inspect(filter, line, p.linesTaken, p.inWindow, p.to);
    if !inWindow {
      SkipKeeps(filter, lines, p, first);
      return p.(rest := rest), true, first + 1;
    }
    TakeKeeps(filter, lines, p, first, to, closed);
    q := Progress(rest, p.window + line, p.linesTaken + 1, true, to);
    return q, !(closed || filter.maximum == Some(q.linesTaken)), first;
  }

  lemma Begun(filter: Filter, lines: seq<Text>, content: Text, p: Progress)
    requires WellFormed(filter) && lines == Lines(content)
    requires p == Progress(content, [], 0, filter.from.None?, if filter.from.None? then filter.to else None)
    ensures Underway(filter, lines, p, 0)
  {
  }

  /** With the reader at its end all lines were seen. */
  lemma EofText(content: Text, n: nat, rest: Text)
    requires n <= |Lines(content)| && Lines(rest) == Lines(content)[n..] && rest == []
    ensures n == |Lines(content)| && |Run(Lines(content), 0, n)| == |content|
  {
    assert |Lines(content)[n..]| == |Lines(content)| - n;
    LinesRun(content);
  }

  lemma ScanEndsAtEof(filter: Filter, content: Text, p: Progress, first: nat)
    requires Underway(filter, Lines(content), p, first) && p.rest == []
    ensures IsScan(filter, content, p.window, |content|)
  {
    EofText(content, first + p.linesTaken, p.rest);
    FileEnded(filter, Lines(content), first, p.linesTaken, p.inWindow, p.to);
    assert ScansAs(filter, content, first, p.linesTaken, p.window, |content|);
  }

  lemma ScanEndsEarly(filter: Filter, content: Text, p: Progress, first: nat)
    requires Complete(filter, Lines(content), p, first)
    ensures |p.rest| <= |content| && IsScan(filter, content, p.window, |content| - |p.rest|)
  {
    StoppedScan(filter, content, first, p.linesTaken, p.window, p.rest);
  }

  lemma StoppedScan(filter: Filter, content: Text, first: nat, count: nat, window: Text, rest: Text)
    requires IsWindow(filter, Lines(content), first, count) && Stopped(filter, Lines(content), first, count)
    requires window == Run(Lines(content), first, first + count) && Lines(rest) == Lines(content)[first + count..]
    ensures |rest| <= |content| && IsScan(filter, content, window, |content| - |rest|)
  {
    ReadSoFar(content, first + count, rest);
    assert ScansAs(filter, content, first, count, window, |content| - |rest|);
  }

  /** The loop of `apply_reader`, before the window is decoded. */
  method Scan(filter: Filter, content: Text) returns (window: Text, read: nat)
    requires WellFormed(filter)
    ensures IsScan(filter, content, window, read)
  {
    var p := Progress(content, [], 0, filter.from.None?, if filter.from.None? then filter.to else None);
    ghost var lines := Lines(content);
    Begun(filter, lines, content, p);
    ghost var first: nat := 0;
    var more := true;
    while more && p.rest != []
      invariant if more then Underway(filter, lines, p, first) else Complete(filter, lines, p, first)
      decreases |p.rest|
    {
      p, more, first := ScanLine(filter, lines, p, first);
    }
    if more {
      ScanEndsAtEof(filter, content, p, first);
    } else {
      ScanEndsEarly(filter, content, p, first);
    }
    return p.window, |content| - |p.rest|;
  }
}
