/**
 * episode_extractor.py, second half: the list pipelines of the episode extractor window.
 * "Process & Save" keeps the pasted lines that are titles, "Use Manual Episode Names" parses a
 * comma-separated list, and "Fetch Episode Names Online" filters, sorts and sanitises the
 * episodes of a TVmaze reply. Each stores its list as the session's new "Episode List".
 */
module Extractor {
  import opened Wrappers
  import opened Strings
  import opened Media
  import opened WindowsSafe

  // ---------------------------------------------------------------------------
  // The shape of the three append loops
  // ---------------------------------------------------------------------------

  /**
   * The non-empty values of `f` over `xs`, in order: each loop computes one string per item
   * and appends it when it is not empty.
   */
  function KeepNonEmpty<T>(xs: seq<T>, f: T -> string): seq<string> {
    if xs == [] then []
    else
      var v := f(xs[|xs| - 1]);
      KeepNonEmpty(xs[..|xs| - 1], f) + (if v == "" then [] else [v])
  }

  /** Each item is judged on its own: keeping over a concatenation concatenates what is kept. */
  lemma {:induction false} KeepAppend<T>(a: seq<T>, b: seq<T>, f: T -> string)
    ensures KeepNonEmpty(a + b, f) == KeepNonEmpty(a, f) + KeepNonEmpty(b, f)
  {
    if b == [] {
      assert a + b == a;
    } else {
      KeepAppend(a, b[..|b| - 1], f);
      assert (a + b)[..|a + b| - 1] == a + b[..|b| - 1];
      assert (a + b)[|a + b| - 1] == b[|b| - 1];
    }
  }

  /** Keeping over one more item appends that item's value, unless it is empty. */
  lemma KeepStep<T>(xs: seq<T>, i: nat, f: T -> string)
    requires i < |xs|
    ensures KeepNonEmpty(xs[..i + 1], f) == KeepNonEmpty(xs[..i], f) + (if f(xs[i]) == "" then [] else [f(xs[i])])
  {
    assert xs[..i + 1][..i] == xs[..i];
  }

  /** A single item gives its value, unless that is empty. */
  lemma KeepOne<T>(x: T, f: T -> string)
    ensures KeepNonEmpty([x], f) == if f(x) == "" then [] else [f(x)]
  {
    assert [x][..0] == [];
  }

  /** Everything kept is a non-empty value of `f` at some item. */
  lemma {:induction false} KeepSource<T>(xs: seq<T>, f: T -> string)
    ensures forall i :: 0 <= i < |KeepNonEmpty(xs, f)| ==>
      KeepNonEmpty(xs, f)[i] != "" && exists j :: 0 <= j < |xs| && KeepNonEmpty(xs, f)[i] == f(xs[j])
  {
    if xs != [] {
      var init := xs[..|xs| - 1];
      KeepSource(init, f);
      forall i | 0 <= i < |KeepNonEmpty(init, f)|
        ensures exists j :: 0 <= j < |xs| && KeepNonEmpty(init, f)[i] == f(xs[j])
      {
        var j :| 0 <= j < |init| && KeepNonEmpty(init, f)[i] == f(init[j]);
        assert init[j] == xs[j];
      }
    }
  }

  /** Items whose values are the non-empty strings `ys` are all kept: the result is `ys`. */
  lemma {:induction false} KeepMapped<T>(xs: seq<T>, ys: seq<string>, f: T -> string)
    requires |xs| == |ys|
    requires forall i :: 0 <= i < |xs| ==> ys[i] != "" && f(xs[i]) == ys[i]
    ensures KeepNonEmpty(xs, f) == ys
  {
    if xs != [] {
      KeepMapped(xs[..|xs| - 1], ys[..|ys| - 1], f);
      assert ys == ys[..|ys| - 1] + [ys[|ys| - 1]];
    }
  }

  /** When every non-empty value of `f` over `xs` has property `p`, everything kept has it. */
  lemma {:induction false} KeepAll<T>(xs: seq<T>, f: T -> string, p: string -> bool)
    requires forall j :: 0 <= j < |xs| && f(xs[j]) != "" ==> p(f(xs[j]))
    ensures forall i :: 0 <= i < |KeepNonEmpty(xs, f)| ==> p(KeepNonEmpty(xs, f)[i])
  {
    if xs != [] {
      var init := xs[..|xs| - 1];
      assert forall j :: 0 <= j < |init| ==> init[j] == xs[j];
      KeepAll(init, f, p);
    }
  }

  // ---------------------------------------------------------------------------
  // parse_manual_episode_titles
  // ---------------------------------------------------------------------------

  /** One comma segment as the parser keeps it: stripped, then made safe. */
  function CleanSegment(part: string): string {
    MakeWindowsSafe(Strip(part))
  }

  /** What parse_manual_episode_titles returns for `rawText`. */
  function ManualTitles(rawText: string): seq<string> {
    if rawText == "" then [] else KeepNonEmpty(SplitOn(rawText, ','), CleanSegment)
  }

  /** parse_manual_episode_titles: split at commas, clean each segment, drop the empty ones. */
  method ParseManualEpisodeTitles(rawText: string) returns (titles: seq<string>)
    ensures titles == ManualTitles(rawText)
  {
    if rawText == "" {
      return [];
    }
    titles := [];
    var parts := SplitOn(rawText, ',');
    for i := 0 to |parts|
      invariant titles == KeepNonEmpty(parts[..i], CleanSegment)
    {
      KeepStep(parts, i, CleanSegment);
      var cleanedPart := MakeWindowsSafe(Strip(parts[i]));
      if cleanedPart != "" {
        titles := titles + [cleanedPart];
      }
    }
    assert parts[..|parts|] == parts;
  }

  /** A title make_windows_safe leaves as it is (see SafeTitleFixed): not empty, clean and not a device name. */
  predicate SafeTitle(t: string) {
    t != "" && IsClean(t) && !IsDeviceName(t)
  }

  /** The safe titles are exactly the non-empty strings make_windows_safe returns unchanged. */
  lemma SafeTitleFixed(t: string)
    ensures SafeTitle(t) <==> t != "" && MakeWindowsSafe(t) == t
  {
    if SafeTitle(t) {
      SafeNameUnchanged(t);
    }
    if t != "" && MakeWindowsSafe(t) == t {
      MakeWindowsSafeProperties(t);
      SafeNameNotDevice(t);
    }
  }

  /** Every non-empty output of make_windows_safe is a safe title. */
  lemma SafeOutput(name: string)
    requires MakeWindowsSafe(name) != ""
    ensures SafeTitle(MakeWindowsSafe(name))
  {
    MakeWindowsSafeProperties(name);
    SafeNameNotDevice(name);
  }

  /** A kept segment is a safe title, and it holds no comma when the segment holds none. */
  lemma SafeSegment(part: string)
    requires CleanSegment(part) != ""
    ensures SafeTitle(CleanSegment(part))
    ensures ',' !in part ==> ',' !in CleanSegment(part)
  {
    SafeOutput(Strip(part));
    MakeWindowsSafeProperties(Strip(part));
    StripProperties(part);
  }

  /** A safe title is its own cleaned segment. */
  lemma SafeSegmentFixed(t: string)
    requires SafeTitle(t)
    ensures CleanSegment(t) == t
  {
    StripNoop(t);
    SafeNameUnchanged(t);
  }

  /**
   * The parser returns safe titles only: none empty, none holding an invalid character, a dot,
   * edge whitespace or a comma.
   */
  lemma ManualTitlesSafe(rawText: string)
    ensures forall i :: 0 <= i < |ManualTitles(rawText)| ==>
      SafeTitle(ManualTitles(rawText)[i]) && ',' !in ManualTitles(rawText)[i]
  {
    if rawText != "" {
      var parts := SplitOn(rawText, ',');
      var titles := KeepNonEmpty(parts, CleanSegment);
      KeepSource(parts, CleanSegment);
      forall i | 0 <= i < |titles| ensures SafeTitle(titles[i]) && ',' !in titles[i] {
        var j :| 0 <= j < |parts| && titles[i] == CleanSegment(parts[j]);
        SafeSegment(parts[j]);
      }
    }
  }

  /** Joining safe, comma-free titles with commas and parsing the text gives the titles back. */
  lemma ManualRoundTrip(titles: seq<string>)
    requires forall i :: 0 <= i < |titles| ==> SafeTitle(titles[i]) && ',' !in titles[i]
    ensures ManualTitles(JoinWith(titles, ',')) == titles
  {
    if titles != [] {
      JoinThenSplit(titles, ',');
      forall i | 0 <= i < |titles| ensures CleanSegment(titles[i]) == titles[i] {
        SafeSegmentFixed(titles[i]);
      }
      KeepMapped(titles, titles, CleanSegment);
      assert JoinWith(titles, ',') != "" by {
        assert |JoinWith(titles, ',')| >= |titles[0]| by { JoinLength(titles, ','); }
      }
    }
  }

  /** A join is at least as long as its first piece. */
  lemma JoinLength(parts: seq<string>, sep: char)
    requires parts != []
    ensures |JoinWith(parts, sep)| >= |parts[0]|
  {
  }

  /** Keeping over two items with non-empty values keeps both. */
  lemma KeepTwo<T>(x: T, y: T, f: T -> string)
    requires f(x) != "" && f(y) != ""
    ensures KeepNonEmpty([x, y], f) == [f(x), f(y)]
  {
    assert [x, y] == [x] + [y];
    KeepAppend([x], [y], f);
    KeepOne(x, f);
    KeepOne(y, f);
  }

  /** Keeping over four items, of which the middle two have empty values, keeps the outer two. */
  lemma KeepOuter<T>(w: T, x: T, y: T, z: T, f: T -> string)
    requires f(w) != "" && f(x) == "" && f(y) == "" && f(z) != ""
    ensures KeepNonEmpty([w, x, y, z], f) == [f(w), f(z)]
  {
    assert [w, x, y, z] == [w] + [x] + [y] + [z];
    KeepAppend([w] + [x] + [y], [z], f);
    KeepAppend([w] + [x], [y], f);
    KeepAppend([w], [x], f);
    KeepOne(w, f);
    KeepOne(x, f);
    KeepOne(y, f);
    KeepOne(z, f);
  }

  /** An empty or blank segment is dropped: it cleans to the empty string. */
  lemma BlankSegment(blank: string)
    requires forall i :: 0 <= i < |blank| ==> IsSpace(blank[i])
    ensures CleanSegment(blank) == ""
  {
    StripBlank(blank);
    EmptyNameStaysEmpty();
  }

  /** A segment padded with spaces cleans to the safe title inside it. */
  lemma PaddedSegment(t: string, pre: string, post: string)
    requires SafeTitle(t)
    requires forall i :: 0 <= i < |pre| ==> IsSpace(pre[i])
    requires forall i :: 0 <= i < |post| ==> IsSpace(post[i])
    ensures CleanSegment(pre + t + post) == t
  {
    StripPadded(pre, t, post);
    SafeNameUnchanged(t);
  }

  /**
   * A segment without edge whitespace that becomes a safe title once its invalid characters
   * are deleted cleans to that title.
   */
  lemma InvalidCharactersDropped(x: string)
    requires NoEdgeSpace(x) && SafeTitle(StripChars(x, InvalidChars))
    ensures CleanSegment(x) == StripChars(x, InvalidChars)
  {
    var y := StripChars(x, InvalidChars);
    StripNoop(x);
    StripCharsNoop(y, InvalidChars);
    assert CleanName(x) == CleanName(y);
    SafeNameUnchanged(y);
  }

  /**
   * tests/test_episode_extractor.py, test_basic_split_and_strip: the spaces around each segment
   * are stripped. Comma-free segments that strip to safe titles come back as those titles.
   */
  lemma ManualTitlesStripSegments(segments: seq<string>, titles: seq<string>)
    requires |segments| == |titles|
    requires forall i :: 0 <= i < |segments| ==>
      ',' !in segments[i] && Strip(segments[i]) == titles[i] && SafeTitle(titles[i])
    ensures ManualTitles(JoinWith(segments, ',')) == titles
  {
    if segments != [] {
      JoinThenSplit(segments, ',');
      forall i | 0 <= i < |segments| ensures CleanSegment(segments[i]) == titles[i] {
        SafeNameUnchanged(titles[i]);
      }
      KeepMapped(segments, titles, CleanSegment);
      assert JoinWith(segments, ',') != "" by {
        JoinLength(segments, ',');
        StripProperties(segments[0]);
      }
    }
  }

  /** test_ignores_empty_segments: empty and blank segments are dropped. */
  lemma ManualTitlesDropEmpty(a: string, blank: string, b: string)
    requires SafeTitle(a) && SafeTitle(b) && ',' !in a && ',' !in b
    requires forall i :: 0 <= i < |blank| ==> IsSpace(blank[i]) && blank[i] != ','
    ensures ManualTitles(a + ",," + blank + "," + b) == [a, b]
  {
    var parts := [a, "", blank, b];
    assert ',' !in blank;
    assert JoinWith(parts, ',') == a + ",," + blank + "," + b by {
      JoinCons(blank, [b], ',');
      JoinCons("", [blank, b], ',');
      JoinCons(a, ["", blank, b], ',');
      assert [blank] + [b] == [blank, b];
      assert [""] + [blank, b] == ["", blank, b];
      assert [a] + ["", blank, b] == parts;
      assert a + [','] + ("" + [','] + (blank + [','] + b)) == a + ",," + blank + "," + b;
    }
    JoinThenSplit(parts, ',');
    SafeSegmentFixed(a);
    SafeSegmentFixed(b);
    BlankSegment("");
    BlankSegment(blank);
    KeepOuter(a, "", blank, b, CleanSegment);
  }

  /** test_invalid_characters_removed: the invalid characters of each segment are deleted. */
  lemma ManualTitlesInvalidRemoved(x: string, y: string)
    requires NoEdgeSpace(x) && SafeTitle(StripChars(x, InvalidChars)) && ',' !in x
    requires NoEdgeSpace(y) && SafeTitle(StripChars(y, InvalidChars)) && ',' !in y
    ensures ManualTitles(x + "," + y) == [StripChars(x, InvalidChars), StripChars(y, InvalidChars)]
  {
    var parts := [x, y];
    assert JoinWith(parts, ',') == x + "," + y by {
      JoinCons(x, [y], ',');
      assert [x] + [y] == parts;
    }
    JoinThenSplit(parts, ',');
    InvalidCharactersDropped(x);
    InvalidCharactersDropped(y);
    KeepTwo(x, y, CleanSegment);
  }

  /**
   * Text read back from a Tk text widget ends with the widget's own "\n"; parsing the joined
   * safe, comma-free titles read that way still gives the titles back.
   */
  lemma ManualRoundTripFromWidget(titles: seq<string>)
    requires forall i :: 0 <= i < |titles| ==> SafeTitle(titles[i]) && ',' !in titles[i]
    ensures ManualTitles(JoinWith(titles, ',') + "\n") == titles
  {
    if titles == [] {
      EmptyWidgetText();
      assert JoinWith(titles, ',') + "\n" == "\n";
    } else {
      WidgetTitles(titles);
    }
  }

  /** The non-empty case of ManualRoundTripFromWidget. */
  lemma WidgetTitles(titles: seq<string>)
    requires titles != []
    requires forall i :: 0 <= i < |titles| ==> SafeTitle(titles[i]) && ',' !in titles[i]
    ensures ManualTitles(JoinWith(titles, ',') + "\n") == titles
  {
    var n := |titles|;
    var segments := titles[..n - 1] + [titles[n - 1] + "\n"];
    JoinAppendLast(titles, ',', "\n");
    WidgetSegments(titles);
    ManualTitlesStripSegments(segments, titles);
  }

  /** An empty output box reads back as "\n", which parses to no titles. */
  lemma EmptyWidgetText()
    ensures ManualTitles("\n") == []
  {
    SplitNoSeparator("\n", ',');
    BlankSegment("\n");
    KeepOne("\n", CleanSegment);
  }

  /** The segments of joined titles read back from the widget: the last one carries the "\n". */
  lemma WidgetSegments(titles: seq<string>)
    requires titles != []
    requires forall i :: 0 <= i < |titles| ==> SafeTitle(titles[i]) && ',' !in titles[i]
    ensures var n := |titles|;
      var segments := titles[..n - 1] + [titles[n - 1] + "\n"];
      forall i :: 0 <= i < n ==> ',' !in segments[i] && Strip(segments[i]) == titles[i]
  {
    var n := |titles|;
    var segments := titles[..n - 1] + [titles[n - 1] + "\n"];
    forall i | 0 <= i < n
      ensures ',' !in segments[i] && Strip(segments[i]) == titles[i]
    {
      if i < n - 1 {
        assert segments[i] == titles[i];
        StripNoop(titles[i]);
      } else {
        StripPadded("", titles[i], "\n");
        assert "" + titles[i] + "\n" == segments[i];
      }
    }
  }

  // ---------------------------------------------------------------------------
  // Storing a list in the session, reversing it in place
  // ---------------------------------------------------------------------------

  /** The list as stored: reversed when the "flipped" setting is 0, as extracted otherwise. */
  function Arranged(titles: seq<string>, flipped: int): seq<string> {
    if flipped == 0 then Reverse(titles) else titles
  }

  /** `list.reverse()`: the elements of `a` in the opposite order, in place. */
  method ReverseInPlace<T>(a: array<T>)
    modifies a
    ensures a[..] == Reverse(old(a[..]))
  {
    var lo, hi := 0, a.Length;
    while lo + 1 < hi
      invariant 0 <= lo && hi == a.Length - lo && lo <= hi
      invariant forall i :: 0 <= i < lo ==> a[i] == old(a[a.Length - 1 - i])
      invariant forall i :: hi <= i < a.Length ==> a[i] == old(a[a.Length - 1 - i])
      invariant forall i :: lo <= i < hi ==> a[i] == old(a[i])
    {
      a[lo], a[hi - 1] := a[hi - 1], a[lo];
      lo, hi := lo + 1, hi - 1;
    }
  }

  /** A new list object holding `titles`. */
  method NewList(titles: seq<string>) returns (list: array<string>)
    ensures fresh(list) && list[..] == titles
  {
    list := new string[|titles|](i requires 0 <= i < |titles| => titles[i]);
  }

  /** override_episode_names: the parsed manual list becomes the session's episode list. */
  method OverrideEpisodeNames(session: MediaSession, rawText: string) returns (titles: seq<string>)
    modifies session
    ensures titles == ManualTitles(rawText)
    ensures fresh(session.episodeList) && session.episodeList[..] == titles
  {
    titles := ParseManualEpisodeTitles(rawText);
    var list := NewList(titles);
    session.episodeList := list;
  }

  // ---------------------------------------------------------------------------
  // process_and_save
  // ---------------------------------------------------------------------------

  /** `[ln.strip() for ln in raw_text.splitlines()]`. */
  function StrippedLines(rawText: string): (lines: seq<string>)
    ensures |lines| == |SplitLines(rawText)|
    ensures forall i :: 0 <= i < |lines| ==> lines[i] == Strip(SplitLines(rawText)[i])
  {
    var split := SplitLines(rawText);
    seq(|split|, i requires 0 <= i < |split| => Strip(split[i]))
  }

  /** What one stripped line contributes: its safe form when it is a title line, nothing otherwise. */
  function TitleOfLine(line: string): string {
    if IsEpisodeTitleLine(line) then MakeWindowsSafe(line) else ""
  }

  /** The titles process_and_save extracts from the pasted text, in source order. */
  function ExtractTitles(rawText: string): seq<string> {
    KeepNonEmpty(StrippedLines(rawText), TitleOfLine)
  }

  /** The loop of process_and_save over the stripped lines: keep the non-empty safe form of each title line. */
  method ExtractEpisodeTitles(rawText: string) returns (titles: seq<string>)
    ensures titles == ExtractTitles(rawText)
  {
    var lines := StrippedLines(rawText);
    titles := [];
    for i := 0 to |lines|
      invariant titles == KeepNonEmpty(lines[..i], TitleOfLine)
    {
      var ln := lines[i];
      KeepStep(lines, i, TitleOfLine);
      if IsEpisodeTitleLine(ln) {
        var safe := MakeWindowsSafe(ln);
        if safe != "" {
          titles := titles + [safe];
        }
      }
    }
    assert lines[..|lines|] == lines;
  }

  /**
   * process_and_save: keeps the title lines of the pasted text in their safe form, reverses the
   * list when "flipped" is 0, stores it as the session's episode list and returns the
   * comma-joined text shown in the output box.
   */
  method ProcessAndSave(session: MediaSession, rawText: string, flipped: int) returns (result: string)
    modifies session
    ensures fresh(session.episodeList)
    ensures session.episodeList[..] == Arranged(ExtractTitles(rawText), flipped)
    ensures result == JoinWith(session.episodeList[..], ',')
  {
    var titles := ExtractEpisodeTitles(rawText);
    var list := NewList(titles);
    if flipped == 0 {
      ReverseInPlace(list);
    }
    session.episodeList := list;
    result := JoinWith(list[..], ',');
  }

  /**
   * Every extracted title is a safe title, and it is the safe form of a stripped line of the text
   * that is a title line.
   */
  lemma ExtractedTitlesSafe(rawText: string)
    ensures var lines, titles := StrippedLines(rawText), ExtractTitles(rawText);
      forall i :: 0 <= i < |titles| ==>
        && SafeTitle(titles[i])
        && exists j :: 0 <= j < |lines| && IsEpisodeTitleLine(lines[j]) && titles[i] == MakeWindowsSafe(lines[j])
  {
    var lines, titles := StrippedLines(rawText), ExtractTitles(rawText);
    KeepSource(lines, TitleOfLine);
    forall i | 0 <= i < |titles|
      ensures SafeTitle(titles[i])
      ensures exists j :: 0 <= j < |lines| && IsEpisodeTitleLine(lines[j]) && titles[i] == MakeWindowsSafe(lines[j])
    {
      var j :| 0 <= j < |lines| && titles[i] == TitleOfLine(lines[j]);
      KeptLine(lines[j]);
    }
  }

  /** A line that gives a title is a title line, and its title is its safe form, a safe title. */
  lemma KeptLine(line: string)
    requires TitleOfLine(line) != ""
    ensures IsEpisodeTitleLine(line) && TitleOfLine(line) == MakeWindowsSafe(line)
    ensures SafeTitle(MakeWindowsSafe(line))
  {
    SafeOutput(line);
  }

  /** A line of the text that is already a safe title line is kept as it is. */
  lemma SafeTitleLineKept(line: string)
    requires SafeTitle(line) && IsEpisodeTitleLine(line)
    ensures TitleOfLine(Strip(line)) == line
  {
    StripNoop(line);
    SafeNameUnchanged(line);
  }

  /**
   * Pasting safe title lines, one per line, with the widget's final "\n", extracts exactly those
   * lines, in order.
   */
  lemma {:induction false} ExtractTitleLines(lines: seq<string>)
    requires lines != []
    requires forall i :: 0 <= i < |lines| ==> SafeTitle(lines[i]) && IsEpisodeTitleLine(lines[i]) && NoLineBreak(lines[i])
    ensures ExtractTitles(JoinWith(lines, '\n') + "\n") == lines
  {
    TitleLinesFixed(lines);
    FixedLinesKept(lines);
    StrippedJoinedLines(lines);
  }

  /** Lines that are each their own non-empty title are all kept, in order. */
  lemma {:induction false} FixedLinesKept(lines: seq<string>)
    requires forall i :: 0 <= i < |lines| ==> lines[i] != "" && TitleOfLine(lines[i]) == lines[i]
    ensures KeepNonEmpty(lines, TitleOfLine) == lines
  {
    KeepMapped(lines, lines, TitleOfLine);
  }

  /** Each safe title line is its own title. */
  lemma TitleLinesFixed(lines: seq<string>)
    requires forall i :: 0 <= i < |lines| ==> SafeTitle(lines[i]) && IsEpisodeTitleLine(lines[i])
    ensures forall i :: 0 <= i < |lines| ==> lines[i] != "" && TitleOfLine(lines[i]) == lines[i]
  {
    forall i | 0 <= i < |lines| ensures TitleOfLine(lines[i]) == lines[i] {
      SafeNameUnchanged(lines[i]);
    }
  }

  /** The stripped lines of pasted lines without edge whitespace are those lines. */
  lemma StrippedJoinedLines(lines: seq<string>)
    requires lines != []
    requires forall i :: 0 <= i < |lines| ==> NoEdgeSpace(lines[i]) && NoLineBreak(lines[i])
    ensures StrippedLines(JoinWith(lines, '\n') + "\n") == lines
  {
    var rawText := JoinWith(lines, '\n') + "\n";
    SplitLinesOfJoin(lines);
    var stripped := StrippedLines(rawText);
    forall i | 0 <= i < |lines| ensures stripped[i] == lines[i] {
      StripNoop(lines[i]);
    }
  }

  /** No extracted title holds a character the text does not hold, except ' ' and '_'. */
  lemma ExtractedCharacters(rawText: string)
    ensures forall i, c :: 0 <= i < |ExtractTitles(rawText)| && c in ExtractTitles(rawText)[i] ==>
      c == ' ' || c == '_' || c in rawText
  {
    var lines, titles := StrippedLines(rawText), ExtractTitles(rawText);
    var split := SplitLines(rawText);
    KeepSource(lines, TitleOfLine);
    forall i, c | 0 <= i < |titles| && c in titles[i] ensures c == ' ' || c == '_' || c in rawText {
      var j :| 0 <= j < |lines| && titles[i] == TitleOfLine(lines[j]);
      MakeWindowsSafeProperties(lines[j]);
      StripProperties(split[j]);
    }
  }

  /** "Use Manual Episode Names" right after "Process & Save", on text without commas, keeps the stored list. */
  lemma OverrideAfterProcess(rawText: string, flipped: int)
    requires ',' !in rawText
    ensures var stored := Arranged(ExtractTitles(rawText), flipped);
      ManualTitles(JoinWith(stored, ',') + "\n") == stored
  {
    StoredTitlesSafe(rawText, flipped);
    ManualRoundTripFromWidget(Arranged(ExtractTitles(rawText), flipped));
  }

  /** The stored list of text without commas holds safe, comma-free titles only. */
  lemma StoredTitlesSafe(rawText: string, flipped: int)
    requires ',' !in rawText
    ensures var stored := Arranged(ExtractTitles(rawText), flipped);
      forall i :: 0 <= i < |stored| ==> SafeTitle(stored[i]) && ',' !in stored[i]
  {
    var titles := ExtractTitles(rawText);
    assert forall k :: 0 <= k < |titles| ==> SafeTitle(titles[k]) by {
      ExtractedTitlesSafe(rawText);
    }
    assert forall k :: 0 <= k < |titles| ==> ',' !in titles[k] by {
      ExtractedCharacters(rawText);
    }
    ArrangedSafe(titles, flipped);
  }

  /** Arranging a list of safe, comma-free titles keeps them safe and comma-free. */
  lemma ArrangedSafe(titles: seq<string>, flipped: int)
    requires forall k :: 0 <= k < |titles| ==> SafeTitle(titles[k]) && ',' !in titles[k]
    ensures var stored := Arranged(titles, flipped);
      forall i :: 0 <= i < |stored| ==> SafeTitle(stored[i]) && ',' !in stored[i]
  {
    var stored := Arranged(titles, flipped);
    forall i | 0 <= i < |stored| ensures SafeTitle(stored[i]) && ',' !in stored[i] {
      var k := if flipped == 0 then |titles| - 1 - i else i;
      assert stored[i] == titles[k];
    }
  }
}
