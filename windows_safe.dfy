/**
 * episode_extractor.py, first half: `make_windows_safe` and `is_episode_title_line`, with the
 * four regular expressions of that file written out as character-level predicates.
 */
module WindowsSafe {
  import opened Strings

  // ---------------------------------------------------------------------------
  // make_windows_safe
  // ---------------------------------------------------------------------------

  /** INVALID_CHARS, the character class `[<>:"/\\|?*]`. */
  const InvalidChars: set<char> := {'<', '>', ':', '"', '/', '\\', '|', '?', '*'}

  /** CON, PRN, AUX or NUL in any letter case. */
  predicate ReservedDevice3(t: string) {
    |t| == 3 &&
    var a, b, c := ToLower(t[0]), ToLower(t[1]), ToLower(t[2]);
    || (a == 'c' && b == 'o' && c == 'n')
    || (a == 'p' && b == 'r' && c == 'n')
    || (a == 'a' && b == 'u' && c == 'x')
    || (a == 'n' && b == 'u' && c == 'l')
  }

  /** COM1 to COM9 or LPT1 to LPT9, the letters in any case. */
  predicate ReservedDevice4(t: string) {
    |t| == 4 &&
    var a, b, c := ToLower(t[0]), ToLower(t[1]), ToLower(t[2]);
    ((a == 'c' && b == 'o' && c == 'm') || (a == 'l' && b == 'p' && c == 't')) && '1' <= t[3] <= '9'
  }

  /** A device name and nothing else. */
  predicate IsDeviceName(s: string) {
    ReservedDevice3(s) || ReservedDevice4(s)
  }

  /**
   * What `(\..*)?$` accepts after the device name: nothing, or a dot and any characters but a
   * line feed, either of them optionally followed by one final line feed (where `$` also matches).
   */
  predicate ReservedTail(t: string) {
    || t == ""
    || t == "\n"
    || (t[0] == '.' && '\n' !in t[1..])
    || (|t| >= 2 && t[0] == '.' && t[|t| - 1] == '\n' && '\n' !in t[1..|t| - 1])
  }

  /** RESERVED_BASENAMES.match(s). */
  predicate ReservedBasename(s: string) {
    || (|s| >= 3 && ReservedDevice3(s[..3]) && ReservedTail(s[3..]))
    || (|s| >= 4 && ReservedDevice4(s[..4]) && ReservedTail(s[4..]))
  }

  /**
   * The text make_windows_safe tests against the reserved names: invalid characters and dots
   * deleted, whitespace runs collapsed to one space, both ends stripped, trailing spaces removed.
   */
  function CleanName(name: string): string {
    TrimEndChar(Strip(CollapseSpace(StripChars(StripChars(name, InvalidChars), {'.'}))), ' ')
  }

  /** make_windows_safe: the cleaned name, with '_' appended when it is a reserved device name. */
  function MakeWindowsSafe(name: string): string {
    var clean := CleanName(name);
    if ReservedBasename(clean) then clean + "_" else clean
  }

  /** An empty name stays empty: there is nothing to clean and "" is no device name. */
  lemma EmptyNameStaysEmpty()
    ensures MakeWindowsSafe("") == ""
  {
    assert StripChars(StripChars("", InvalidChars), {'.'}) == "";
    assert CleanName("") == "";
  }

  /** A string the four clean-up steps leave as it is. */
  predicate IsClean(s: string) {
    && (forall i :: 0 <= i < |s| ==> s[i] !in InvalidChars && s[i] != '.')
    && NoEdgeSpace(s)
    && Collapsed(s)
  }

  /**
   * The cleaned name has no invalid character and no dot, no whitespace at either end, only
   * single plain spaces inside, and no character that was not in the name except ' '.
   */
  lemma CleanNameProperties(name: string)
    ensures IsClean(CleanName(name))
    ensures forall c :: c in CleanName(name) ==> c == ' ' || c in name
    ensures NonSpace(CleanName(name)) == NonSpace(StripChars(name, InvalidChars + {'.'}))
    ensures CleanName(name) == JoinWith(Words(StripChars(name, InvalidChars + {'.'})), ' ')
  {
    CleanNameWords(name);
    CleanNameKeepsOthers(name);
    CleanNameCharacters(name);
    CleanNameSpacing(name);
    var e := CleanName(name);
    forall i | 0 <= i < |e| ensures e[i] !in InvalidChars && e[i] != '.' {
      assert e[i] in e;
    }
  }

  /**
   * The cleaned name is `' '.join(x.split())` of the name x without its invalid characters and
   * dots: its words, each whitespace run between two of them turned into exactly one space.
   */
  lemma CleanNameWords(name: string)
    ensures CleanName(name) == JoinWith(Words(StripChars(name, InvalidChars + {'.'})), ' ')
  {
    var b := StripChars(StripChars(name, InvalidChars), {'.'});
    StripCharsCompose(name, InvalidChars, {'.'});
    StripCollapseWords(b);
    StripProperties(CollapseSpace(b));
  }

  /**
   * Only invalid characters, dots and whitespace are lost: the other characters of the name
   * all survive, in order.
   */
  lemma CleanNameKeepsOthers(name: string)
    ensures NonSpace(CleanName(name)) == NonSpace(StripChars(name, InvalidChars + {'.'}))
  {
    var b := StripChars(StripChars(name, InvalidChars), {'.'});
    StripCharsCompose(name, InvalidChars, {'.'});
    var c := CollapseSpace(b);
    CollapseKeepsNonSpace(b);
    StripKeepsNonSpace(c);
    StripKeepsNonSpace(Strip(c));
  }

  /** Every character of the cleaned name is a space or a character of the name that is neither invalid nor a dot. */
  lemma CleanNameCharacters(name: string)
    ensures forall ch :: ch in CleanName(name) ==> ch == ' ' || (ch in name && ch !in InvalidChars && ch != '.')
  {
    var a := StripChars(name, InvalidChars);
    var b := StripChars(a, {'.'});
    var c := CollapseSpace(b);
    var d := Strip(c);
    var e := TrimEndChar(d, ' ');
    StripProperties(c);
    forall ch | ch in e ensures ch == ' ' || (ch in name && ch !in InvalidChars && ch != '.') {
      assert ch in d;
      assert ch in c;
      if ch != ' ' {
        assert ch in b;
        var j :| 0 <= j < |b| && b[j] == ch;
        assert ch in a;
        var k :| 0 <= k < |a| && a[k] == ch;
      }
    }
  }

  /** The cleaned name has no whitespace at either end and only single plain spaces inside. */
  lemma CleanNameSpacing(name: string)
    ensures NoEdgeSpace(CleanName(name)) && Collapsed(CleanName(name))
  {
    var c := CollapseSpace(StripChars(StripChars(name, InvalidChars), {'.'}));
    var d := Strip(c);
    var e := TrimEndChar(d, ' ');
    StripProperties(c);
    assert e == d[..|e|];
    CollapsedSlice(d, 0, |e|);
    if e != [] {
      assert e[0] == d[0];
      assert IsSpace(e[|e| - 1]) ==> e[|e| - 1] == ' ';
    }
  }

  /** A clean string goes through the clean-up steps unchanged. */
  lemma CleanNameNoop(s: string)
    requires IsClean(s)
    ensures CleanName(s) == s
  {
    StripCharsNoop(s, InvalidChars);
    StripCharsNoop(s, {'.'});
    CollapseSpaceNoop(s);
    StripNoop(s);
  }

  /** When deleting the invalid characters and dots already leaves a clean string, that is the cleaned name. */
  lemma CleanAfterDeletions(name: string, deleted: string)
    requires StripChars(StripChars(name, InvalidChars), {'.'}) == deleted && IsClean(deleted)
    ensures CleanName(name) == deleted
  {
    CollapseSpaceNoop(deleted);
    StripNoop(deleted);
  }

  /**
   * On a string with no dot and no line feed, as every cleaned name is, the reserved-name
   * pattern matches exactly the bare device names.
   */
  lemma ReservedOnClean(s: string)
    requires '.' !in s && '\n' !in s
    ensures ReservedBasename(s) <==> IsDeviceName(s)
  {
    if |s| >= 3 {
      TailWithoutDot(s, 3);
      assert s[..3] == s <== |s| == 3;
    }
    if |s| >= 4 {
      TailWithoutDot(s, 4);
      assert s[..4] == s <== |s| == 4;
    }
  }

  /** Without a dot or a line feed the only tail `(\..*)?$` accepts is the empty one. */
  lemma TailWithoutDot(s: string, k: nat)
    requires k <= |s| && '.' !in s && '\n' !in s
    ensures ReservedTail(s[k..]) <==> k == |s|
  {
    if k < |s| {
      assert s[k..][0] == s[k];
      assert s[k] in s;
    }
  }

  /** A clean string has no line feed: its only whitespace is the plain space. */
  lemma CleanHasNoLineFeed(s: string)
    requires IsClean(s)
    ensures '\n' !in s && '.' !in s
  {
    forall i | 0 <= i < |s| ensures s[i] != '\n' {
      if IsSpace(s[i]) {
        assert s[i] == ' ';
      }
    }
  }

  /** Appending '_' to a non-empty clean string keeps it clean. */
  lemma UnderscoreKeepsClean(s: string)
    requires IsClean(s) && s != []
    ensures IsClean(s + "_")
  {
    var r := s + "_";
    forall i | 0 <= i < |r| && IsSpace(r[i])
      ensures r[i] == ' ' && (i + 1 == |r| || !IsSpace(r[i + 1]))
    {
      assert i < |s| && r[i] == s[i];
      if i + 1 < |s| {
        assert r[i + 1] == s[i + 1];
      }
    }
    assert r[0] == s[0];
  }

  /**
   * make_windows_safe returns a clean string: no invalid character, no dot, no whitespace at
   * either end, single spaces inside. It appends exactly one '_' when the cleaned name is a
   * device name (CON, PRN, AUX, NUL, COM1-9, LPT1-9 in any case) and otherwise returns the
   * cleaned name; apart from ' ' and that '_' every character comes from the input, and every
   * character of the input that is not invalid, a dot or whitespace survives, in order.
   */
  lemma MakeWindowsSafeProperties(name: string)
    ensures IsClean(MakeWindowsSafe(name))
    ensures IsDeviceName(CleanName(name)) ==> MakeWindowsSafe(name) == CleanName(name) + "_"
    ensures !IsDeviceName(CleanName(name)) ==> MakeWindowsSafe(name) == CleanName(name)
    ensures forall c :: c in MakeWindowsSafe(name) ==> c == ' ' || c == '_' || c in name
    ensures NonSpace(MakeWindowsSafe(name))
      == NonSpace(StripChars(name, InvalidChars + {'.'})) + (if IsDeviceName(CleanName(name)) then "_" else "")
    ensures MakeWindowsSafe(name)
      == JoinWith(Words(StripChars(name, InvalidChars + {'.'})), ' ') + (if IsDeviceName(CleanName(name)) then "_" else "")
  {
    var clean := CleanName(name);
    CleanNameProperties(name);
    ReservedSuffixStep(clean);
    SafeNameKeepsOthers(name);
    SafeNameWords(name);
  }

  /** make_windows_safe is the cleaned name, followed by '_' exactly when that is a device name. */
  lemma SafeNameShape(name: string)
    ensures MakeWindowsSafe(name) == CleanName(name) + (if IsDeviceName(CleanName(name)) then "_" else "")
  {
    var clean := CleanName(name);
    assert IsClean(clean) by {
      CleanNameProperties(name);
    }
    ReservedSuffixStep(clean);
  }

  /**
   * make_windows_safe keeps the words of the name, invalid characters and dots deleted, joined
   * by single spaces, and appends '_' exactly when that is a device name.
   */
  lemma SafeNameWords(name: string)
    ensures MakeWindowsSafe(name)
      == JoinWith(Words(StripChars(name, InvalidChars + {'.'})), ' ') + (if IsDeviceName(CleanName(name)) then "_" else "")
  {
    SafeNameShape(name);
    CleanNameWords(name);
  }

  /** The characters of the name that are not invalid, dots or whitespace all survive, in order. */
  lemma SafeNameKeepsOthers(name: string)
    ensures NonSpace(MakeWindowsSafe(name))
      == NonSpace(StripChars(name, InvalidChars + {'.'})) + (if IsDeviceName(CleanName(name)) then "_" else "")
  {
    SafeNameShape(name);
    CleanNameKeepsOthers(name);
    UnderscoreNonSpace(CleanName(name));
  }

  /** The '_' make_windows_safe may append is kept among the characters that are not whitespace. */
  lemma UnderscoreNonSpace(s: string)
    ensures NonSpace(s + "_") == NonSpace(s) + "_"
  {
    NonSpaceAppend(s, "_");
    assert NonSpace("_") == "_";
  }

  /**
   * Counted character by character: each character that is not whitespace, invalid, a dot or
   * '_' occurs in the output exactly as often as in the name.
   */
  lemma SafeNameCounts(name: string)
    ensures forall c :: !IsSpace(c) && c !in InvalidChars && c != '.' && c != '_' ==>
      multiset(MakeWindowsSafe(name))[c] == multiset(name)[c]
  {
    var r := MakeWindowsSafe(name);
    var kept := StripChars(name, InvalidChars + {'.'});
    var tail := if IsDeviceName(CleanName(name)) then "_" else "";
    SafeNameKeepsOthers(name);
    NonSpaceCount(r);
    NonSpaceCount(kept);
    StripCharsKeepsOthers(name, InvalidChars + {'.'});
    forall c | !IsSpace(c) && c !in InvalidChars && c != '.' && c != '_'
      ensures multiset(r)[c] == multiset(name)[c]
    {
      calc {
        multiset(r)[c];
        multiset(NonSpace(r))[c];
        multiset(NonSpace(kept) + tail)[c];
        { assert multiset(NonSpace(kept) + tail) == multiset(NonSpace(kept)) + multiset(tail); }
        multiset(NonSpace(kept))[c] + multiset(tail)[c];
        multiset(kept)[c];
      }
    }
  }

  /** The last step of make_windows_safe on a clean string: '_' exactly for a device name. */
  lemma ReservedSuffixStep(clean: string)
    requires IsClean(clean)
    ensures var r := if ReservedBasename(clean) then clean + "_" else clean;
      && IsClean(r)
      && (IsDeviceName(clean) ==> r == clean + "_")
      && (!IsDeviceName(clean) ==> r == clean)
      && r == clean + (if IsDeviceName(clean) then "_" else "")
  {
    CleanHasNoLineFeed(clean);
    ReservedOnClean(clean);
    if IsDeviceName(clean) {
      UnderscoreKeepsClean(clean);
    }
  }

  /** Running make_windows_safe on its own output changes nothing: the '_' ends any device name. */
  lemma MakeWindowsSafeIdempotent(name: string)
    ensures MakeWindowsSafe(MakeWindowsSafe(name)) == MakeWindowsSafe(name)
  {
    var r := MakeWindowsSafe(name);
    MakeWindowsSafeProperties(name);
    SafeNameNotDevice(name);
    SafeNameUnchanged(r);
  }

  /** The output of make_windows_safe is never itself a device name. */
  lemma SafeNameNotDevice(name: string)
    ensures !IsDeviceName(MakeWindowsSafe(name))
  {
    var clean := CleanName(name);
    if ReservedBasename(clean) {
      UnderscoreNotDevice(clean);
    } else {
      CleanNameProperties(name);
      CleanHasNoLineFeed(clean);
      ReservedOnClean(clean);
    }
  }

  /** No device name ends in '_'. */
  lemma UnderscoreNotDevice(s: string)
    ensures !IsDeviceName(s + "_")
  {
    var r := s + "_";
    assert r[|r| - 1] == '_';
  }

  /** A clean string that is not a device name is already safe. */
  lemma SafeNameUnchanged(s: string)
    requires IsClean(s) && !IsDeviceName(s)
    ensures MakeWindowsSafe(s) == s
  {
    CleanNameNoop(s);
    ReservedSuffixStep(s);
  }

  /** Letters and digits only. */
  predicate Alphanumeric(s: string) {
    forall i :: 0 <= i < |s| ==> IsAsciiLetter(s[i]) || IsDigit(s[i])
  }

  /** A string of letters and digits is clean. */
  lemma AlphanumericClean(s: string)
    requires Alphanumeric(s)
    ensures IsClean(s)
  {
  }

  /** Two strings of letters and digits run together are letters and digits. */
  lemma AlphanumericAppend(a: string, b: string)
    requires Alphanumeric(a) && Alphanumeric(b)
    ensures Alphanumeric(a + b)
  {
    forall i | 0 <= i < |a + b| ensures IsAsciiLetter((a + b)[i]) || IsDigit((a + b)[i]) {
      if i < |a| {
        assert (a + b)[i] == a[i];
      } else {
        assert (a + b)[i] == b[i - |a|];
      }
    }
  }

  /** A device name is made of letters and a digit. */
  lemma DeviceAlphanumeric(d: string)
    requires IsDeviceName(d)
    ensures Alphanumeric(d)
  {
    assert IsAsciiLetter(ToLower(d[0])) && IsAsciiLetter(ToLower(d[1])) && IsAsciiLetter(ToLower(d[2]));
  }

  /**
   * Dots go before the reserved-name test: a device name with an extension, such as "com3.txt",
   * matches the reserved pattern, yet make_windows_safe deletes the dot first and returns the
   * device name and extension run together ("com3txt") with no '_'.
   */
  lemma DotsRemovedBeforeReservedTest(device: string, ext: string)
    requires IsDeviceName(device)
    requires ext != [] && Alphanumeric(ext)
    ensures ReservedBasename(device + "." + ext)
    ensures MakeWindowsSafe(device + "." + ext) == device + ext
  {
    DeviceAlphanumeric(device);
    ExtensionReserved(device, ext);
    JoinedNotDevice(device, ext);
    DotDroppedUnreserved(device, ext);
  }

  /**
   * A name of letters and digits, a dot and letters and digits whose two parts run together
   * are no device name comes out of make_windows_safe as the two parts run together.
   */
  lemma DotDroppedUnreserved(stem: string, ext: string)
    requires Alphanumeric(stem) && Alphanumeric(ext) && !IsDeviceName(stem + ext)
    ensures MakeWindowsSafe(stem + "." + ext) == stem + ext
  {
    var name, joined := stem + "." + ext, stem + ext;
    AlphanumericAppend(stem, ext);
    assert CleanName(name) == joined by {
      DotDeleted(stem, ext);
      AlphanumericClean(joined);
      CleanAfterDeletions(name, joined);
    }
    assert !ReservedBasename(joined) by {
      AlphanumericClean(joined);
      CleanHasNoLineFeed(joined);
      ReservedOnClean(joined);
    }
    UnreservedClean(name, joined);
  }

  /** A name whose cleaned form is not reserved comes out as that cleaned form. */
  lemma UnreservedClean(name: string, clean: string)
    requires CleanName(name) == clean && !ReservedBasename(clean)
    ensures MakeWindowsSafe(name) == clean
  {
  }

  /** A device name followed by a dot and more is reserved. */
  lemma ExtensionReserved(device: string, ext: string)
    requires IsDeviceName(device) && Alphanumeric(ext)
    ensures ReservedBasename(device + "." + ext)
  {
    var name := device + "." + ext;
    assert name[..|device|] == device;
    assert name[|device|..] == "." + ext;
    assert ("." + ext)[1..] == ext;
  }

  /** A device name and a non-empty extension run together are no device name. */
  lemma JoinedNotDevice(device: string, ext: string)
    requires IsDeviceName(device) && ext != []
    ensures !IsDeviceName(device + ext)
  {
    var joined := device + ext;
    assert joined[0] == device[0] && joined[1] == device[1] && joined[2] == device[2];
  }

  /** Deleting invalid characters and then dots from a device name with an extension leaves both run together. */
  lemma DotDeleted(device: string, ext: string)
    requires Alphanumeric(device) && Alphanumeric(ext)
    ensures StripChars(StripChars(device + "." + ext, InvalidChars), {'.'}) == device + ext
  {
    var name := device + "." + ext;
    StripCharsNoop(name, InvalidChars);
    DeviceDotDeleted(device);
    StripCharsAppend(device + ".", ext, {'.'});
    StripCharsNoop(ext, {'.'});
  }

  /** Deleting dots from letters and digits followed by a dot leaves the letters and digits. */
  lemma DeviceDotDeleted(device: string)
    requires Alphanumeric(device)
    ensures StripChars(device + ".", {'.'}) == device
  {
    StripCharsAppend(device, ".", {'.'});
    StripCharsNoop(device, {'.'});
    assert StripChars(".", {'.'}) == "";
  }

  /** A bare device name gets its '_' whatever its case: "con" and "Com1" become "con_" and "Com1_". */
  lemma DeviceNameSuffixed(device: string)
    requires IsDeviceName(device)
    ensures MakeWindowsSafe(device) == device + "_"
  {
    DeviceAlphanumeric(device);
    AlphanumericClean(device);
    DeviceReserved(device);
    CleanReserved(device);
  }

  /** A bare device name matches the reserved-name pattern. */
  lemma DeviceReserved(device: string)
    requires IsDeviceName(device)
    ensures ReservedBasename(device)
  {
    assert device[..|device|] == device && device[|device|..] == "";
  }

  /** A clean name the pattern matches gets its '_'. */
  lemma CleanReserved(s: string)
    requires IsClean(s) && ReservedBasename(s)
    ensures MakeWindowsSafe(s) == s + "_"
  {
    CleanNameNoop(s);
  }


  // ---------------------------------------------------------------------------
  // is_episode_title_line
  // ---------------------------------------------------------------------------

  /** `s` begins with `word` when letter case is ignored (`word` is written in lower case). */
  predicate StartsWithFolded(s: string, word: string) {
    |word| <= |s| && forall i :: 0 <= i < |word| ==> ToLower(s[i]) == word[i]
  }

  /** `re.fullmatch(r'\d+', s)`: at least one character, all of them digits. */
  predicate AllDigits(s: string) {
    s != [] && forall i :: 0 <= i < |s| ==> IsDigit(s[i])
  }

  /** The three character classes DATE_LINE repeats: `[a-z]` under `re.I`, `\s` and `\d`. */
  datatype CharClass = Letter | Space | Digit

  predicate InClass(c: char, k: CharClass) {
    match k
    case Letter => IsAsciiLetter(c)
    case Space => IsSpace(c)
    case Digit => IsDigit(c)
  }

  /** Every character of `s` is in class `k`. */
  predicate Run(s: string, k: CharClass) {
    forall i :: 0 <= i < |s| ==> InClass(s[i], k)
  }

  /** The length of the longest prefix of `s` inside class `k`. */
  function Span(s: string, k: CharClass): (n: nat)
    ensures n <= |s|
    ensures forall i :: 0 <= i < n ==> InClass(s[i], k)
    ensures n < |s| ==> !InClass(s[n], k)
  {
    if s == [] || !InClass(s[0], k) then 0
    else
      var n := 1 + Span(s[1..], k);
      assert forall i :: 1 <= i < n ==> s[i] == s[1..][i - 1];
      n
  }

  /** The first three letters of the twelve month names; "Sept" is "Sep" followed by `[a-z]*`. */
  const Months: seq<string> := ["jan", "feb", "mar", "apr", "may", "jun", "jul", "aug", "sep", "oct", "nov", "dec"]

  /** `\d{4}$`: four digits, then the end or a final line feed. */
  predicate IsYearEnd(f: string) {
    (|f| == 4 || (|f| == 5 && f[4] == '\n')) && forall i :: 0 <= i < 4 ==> IsDigit(f[i])
  }

  /**
   * DATE_LINE.match(s): a month, more letters, whitespace, a one- or two-digit day, whitespace
   * and a four-digit year. Letters, whitespace and digits are disjoint classes, so a greedy
   * scan of each run decides the match; each predicate below reads one run and hands the rest on.
   */
  predicate IsDateLine(s: string) {
    |s| >= 3 && (exists j :: 0 <= j < |Months| && StartsWithFolded(s, Months[j])) && AfterMonth(s[3..])
  }

  /** `[a-z]*` then the rest. */
  predicate AfterMonth(a: string) {
    AfterLetters(a[Span(a, Letter)..])
  }

  /** `\s+` then the rest. */
  predicate AfterLetters(b: string) {
    var gap := Span(b, Space);
    gap >= 1 && AfterFirstGap(b[gap..])
  }

  /** `\d{1,2}` then the rest. */
  predicate AfterFirstGap(c: string) {
    var day := Span(c, Digit);
    1 <= day <= 2 && AfterDay(c[day..])
  }

  /** `\s+\d{4}$`. */
  predicate AfterDay(e: string) {
    var gap := Span(e, Space);
    gap >= 1 && IsYearEnd(e[gap..])
  }

  /** The release-note tokens of IGNORE_NOTES, lower-cased; WEB-DL and "WEB DL" begin with WEB. */
  const ReleaseNotes: seq<string> :=
    ["finale", "remux", "hdtv", "blu-ray", "bluray", "web", "x264", "x265", "1080p", "720p", "2160p", "4k"]

  predicate NoteAtStart(s: string) {
    exists j :: 0 <= j < |ReleaseNotes| && StartsWithFolded(s, ReleaseNotes[j])
  }

  /** IGNORE_NOTES.search(s), trying the start positions left to right. */
  predicate HasReleaseNote(s: string) {
    s != [] && (NoteAtStart(s) || HasReleaseNote(s[1..]))
  }

  /** The scan finds a note exactly when one starts at some position of the line. */
  lemma {:induction false} HasReleaseNoteSomewhere(s: string)
    ensures HasReleaseNote(s) <==> exists i :: 0 <= i < |s| && NoteAtStart(s[i..])
  {
    if s != [] {
      HasReleaseNoteSomewhere(s[1..]);
      if exists i :: 0 <= i < |s| && NoteAtStart(s[i..]) {
        var i :| 0 <= i < |s| && NoteAtStart(s[i..]);
        if i > 0 {
          assert s[1..][i - 1..] == s[i..];
        }
      }
      if exists i :: 0 <= i < |s[1..]| && NoteAtStart(s[1..][i..]) {
        var i :| 0 <= i < |s[1..]| && NoteAtStart(s[1..][i..]);
        assert s[1..][i..] == s[i + 1..];
      }
      assert s[0..] == s;
    }
  }

  /** is_episode_title_line: the four tests in order, each rejecting the line. */
  predicate IsEpisodeTitleLine(line: string) {
    if line == "" then false
    else if AllDigits(line) then false
    else if IsDateLine(line) then false
    else if HasReleaseNote(line) then false
    else true
  }

  /** A run of characters of class `k` followed by a character outside it is exactly what Span measures. */
  lemma {:induction false} SpanOfRun(x: string, y: string, k: CharClass)
    requires forall i :: 0 <= i < |x| ==> InClass(x[i], k)
    requires y == [] || !InClass(y[0], k)
    ensures Span(x + y, k) == |x| && (x + y)[|x|..] == y
  {
    if x != [] {
      assert (x + y)[1..] == x[1..] + y;
      SpanOfRun(x[1..], y, k);
    }
  }

  /**
   * The pieces of a line of the form DATE_LINE describes: a month's first three letters in any
   * case (the `j`-th month), then the pieces of DateTailParts.
   */
  predicate DateParts(j: nat, month: string, letters: string, gap1: string, day: string,
                      gap2: string, year: string, newline: bool)
  {
    && j < |Months| && |month| == 3 && StartsWithFolded(month, Months[j])
    && DateTailParts(letters, gap1, day, gap2, year)
  }

  /** More letters, whitespace, one or two digits, whitespace and four digits. */
  predicate DateTailParts(letters: string, gap1: string, day: string, gap2: string, year: string) {
    && Run(letters, Letter)
    && |gap1| >= 1 && Run(gap1, Space)
    && 1 <= |day| <= 2 && Run(day, Digit)
    && |gap2| >= 1 && Run(gap2, Space)
    && |year| == 4 && Run(year, Digit)
  }

  /** The line those pieces make, the year optionally followed by a final line feed. */
  function DateText(month: string, letters: string, gap1: string, day: string,
                    gap2: string, year: string, newline: bool): string
  {
    month + DateTail(letters, gap1, day, gap2, year, newline)
  }

  function DateTail(letters: string, gap1: string, day: string, gap2: string, year: string, newline: bool): string {
    letters + (gap1 + (day + (gap2 + (year + (if newline then "\n" else "")))))
  }

  /** Every line of the form DATE_LINE describes is a date line and so no title. */
  lemma DateLineRejected(j: nat, month: string, letters: string, gap1: string, day: string,
                         gap2: string, year: string, newline: bool)
    requires DateParts(j, month, letters, gap1, day, gap2, year, newline)
    ensures var line := DateText(month, letters, gap1, day, gap2, year, newline);
      IsDateLine(line) && !IsEpisodeTitleLine(line)
  {
    var t5 := year + (if newline then "\n" else "");
    assert IsYearEnd(t5);
    DateLineNested(j, month, letters, gap1, day, gap2, t5);
  }

  /** Conversely, the scan accepts nothing else: every date line splits into such pieces. */
  lemma DateLineParts(s: string)
    returns (j: nat, month: string, letters: string, gap1: string, day: string,
             gap2: string, year: string, newline: bool)
    requires IsDateLine(s)
    ensures DateParts(j, month, letters, gap1, day, gap2, year, newline)
    ensures s == DateText(month, letters, gap1, day, gap2, year, newline)
  {
    var a;
    j, month, a := MonthSplit(s);
    letters, gap1, day, gap2, year, newline := AssembleDate(j, month, a);
  }

  /** A date line is its month's first three letters followed by what AfterMonth accepts. */
  lemma MonthSplit(s: string) returns (j: nat, month: string, a: string)
    requires IsDateLine(s)
    ensures j < |Months| && |month| == 3 && StartsWithFolded(month, Months[j]) && AfterMonth(a)
    ensures s == month + a
  {
    j := PickMonth(s);
    MonthPrefix(s, j);
    month, a := s[..3], s[3..];
  }

  /** A month followed by what AfterMonth accepts is made of the pieces of a date line. */
  lemma AssembleDate(j: nat, month: string, a: string)
    returns (letters: string, gap1: string, day: string, gap2: string, year: string, newline: bool)
    requires j < |Months| && |month| == 3 && StartsWithFolded(month, Months[j]) && AfterMonth(a)
    ensures DateParts(j, month, letters, gap1, day, gap2, year, newline)
    ensures month + a == DateText(month, letters, gap1, day, gap2, year, newline)
  {
    letters, gap1, day, gap2, year, newline := AfterMonthParts(a);
  }

  /** The month a date line starts with. */
  lemma PickMonth(s: string) returns (j: nat)
    requires exists j :: 0 <= j < |Months| && StartsWithFolded(s, Months[j])
    ensures j < |Months| && StartsWithFolded(s, Months[j])
  {
    j :| 0 <= j < |Months| && StartsWithFolded(s, Months[j]);
  }

  /** The first three characters of a line that starts with a month are that month. */
  lemma MonthPrefix(s: string, j: nat)
    requires j < |Months| && StartsWithFolded(s, Months[j])
    ensures |s| >= 3 && StartsWithFolded(s[..3], Months[j])
  {
    assert |Months[j]| == 3;
    assert forall i :: 0 <= i < 3 ==> s[..3][i] == s[i];
  }

  /** What follows the month in a date line splits into the pieces of DateTailParts. */
  lemma AfterMonthParts(a: string)
    returns (letters: string, gap1: string, day: string, gap2: string, year: string, newline: bool)
    requires AfterMonth(a)
    ensures DateTailParts(letters, gap1, day, gap2, year)
    ensures a == DateTail(letters, gap1, day, gap2, year, newline)
  {
    var b, c, e;
    letters, b := RunSplit(a, Letter);
    gap1, c := RunSplit(b, Space);
    day, e := RunSplit(c, Digit);
    gap2, year, newline := AfterDayParts(e);
  }

  /** `\s+\d{4}$` splits into the gap, the year and the optional final line feed. */
  lemma AfterDayParts(e: string) returns (gap2: string, year: string, newline: bool)
    requires AfterDay(e)
    ensures |gap2| >= 1 && Run(gap2, Space) && |year| == 4 && Run(year, Digit)
    ensures e == gap2 + (year + (if newline then "\n" else ""))
  {
    var f;
    gap2, f := RunSplit(e, Space);
    year := f[..4];
    newline := |f| == 5;
    assert f == year + (if newline then "\n" else "");
  }

  /** The run of class `k` a greedy scan reads off the front of `s`, and what it leaves. */
  lemma RunSplit(s: string, k: CharClass) returns (run: string, rest: string)
    ensures run == s[..Span(s, k)] && rest == s[Span(s, k)..] && s == run + rest
    ensures Run(run, k)
  {
    run, rest := s[..Span(s, k)], s[Span(s, k)..];
  }

  /** DATE_LINE.match, stated as the shape of the lines it accepts. */
  lemma DateLineExactly(s: string)
    ensures IsDateLine(s) <==>
      exists j: nat, month, letters, gap1, day, gap2, year, newline ::
        DateParts(j, month, letters, gap1, day, gap2, year, newline)
        && s == DateText(month, letters, gap1, day, gap2, year, newline)
  {
    if IsDateLine(s) {
      var j, month, letters, gap1, day, gap2, year, newline := DateLineParts(s);
    }
    if exists j: nat, month, letters, gap1, day, gap2, year, newline ::
         DateParts(j, month, letters, gap1, day, gap2, year, newline)
         && s == DateText(month, letters, gap1, day, gap2, year, newline)
    {
      var j: nat, month, letters, gap1, day, gap2, year, newline :|
        DateParts(j, month, letters, gap1, day, gap2, year, newline)
        && s == DateText(month, letters, gap1, day, gap2, year, newline);
      DateLineRejected(j, month, letters, gap1, day, gap2, year, newline);
    }
  }

  /** DateLineRejected with the line grouped from the right, which is how the scan reads it. */
  lemma DateLineNested(j: nat, month: string, letters: string, gap1: string, day: string,
                       gap2: string, t5: string)
    requires j < |Months| && |month| == 3 && StartsWithFolded(month, Months[j])
    requires forall i :: 0 <= i < |letters| ==> IsAsciiLetter(letters[i])
    requires |gap1| >= 1 && forall i :: 0 <= i < |gap1| ==> IsSpace(gap1[i])
    requires 1 <= |day| <= 2 && forall i :: 0 <= i < |day| ==> IsDigit(day[i])
    requires |gap2| >= 1 && forall i :: 0 <= i < |gap2| ==> IsSpace(gap2[i])
    requires IsYearEnd(t5)
    ensures IsDateLine(month + (letters + (gap1 + (day + (gap2 + t5)))))
  {
    var t1 := letters + (gap1 + (day + (gap2 + t5)));
    ScanAfterMonth(letters, gap1, day, gap2, t5);
    var line := month + t1;
    assert line[3..] == t1;
    assert StartsWithFolded(line, Months[j]) by {
      assert forall i :: 0 <= i < 3 ==> line[i] == month[i];
    }
  }

  lemma ScanAfterMonth(letters: string, gap1: string, day: string, gap2: string, t5: string)
    requires forall i :: 0 <= i < |letters| ==> IsAsciiLetter(letters[i])
    requires |gap1| >= 1 && forall i :: 0 <= i < |gap1| ==> IsSpace(gap1[i])
    requires 1 <= |day| <= 2 && forall i :: 0 <= i < |day| ==> IsDigit(day[i])
    requires |gap2| >= 1 && forall i :: 0 <= i < |gap2| ==> IsSpace(gap2[i])
    requires IsYearEnd(t5)
    ensures AfterMonth(letters + (gap1 + (day + (gap2 + t5))))
  {
    var rest := gap1 + (day + (gap2 + t5));
    ScanAfterLetters(gap1, day, gap2, t5);
    assert rest[0] == gap1[0];
    LettersBeforeGap(letters, rest);
  }

  lemma ScanAfterLetters(gap1: string, day: string, gap2: string, t5: string)
    requires |gap1| >= 1 && forall i :: 0 <= i < |gap1| ==> IsSpace(gap1[i])
    requires 1 <= |day| <= 2 && forall i :: 0 <= i < |day| ==> IsDigit(day[i])
    requires |gap2| >= 1 && forall i :: 0 <= i < |gap2| ==> IsSpace(gap2[i])
    requires IsYearEnd(t5)
    ensures AfterLetters(gap1 + (day + (gap2 + t5)))
  {
    var rest := day + (gap2 + t5);
    ScanAfterFirstGap(day, gap2, t5);
    assert rest[0] == day[0];
    GapBeforeDay(gap1, rest);
  }

  lemma ScanAfterFirstGap(day: string, gap2: string, t5: string)
    requires 1 <= |day| <= 2 && forall i :: 0 <= i < |day| ==> IsDigit(day[i])
    requires |gap2| >= 1 && forall i :: 0 <= i < |gap2| ==> IsSpace(gap2[i])
    requires IsYearEnd(t5)
    ensures AfterFirstGap(day + (gap2 + t5))
  {
    var rest := gap2 + t5;
    assert AfterDay(rest) by {
      assert !IsSpace(t5[0]);
      SpanOfRun(gap2, t5, Space);
    }
    assert rest[0] == gap2[0] && !IsDigit(rest[0]);
    SpanOfRun(day, rest, Digit);
  }

  lemma GapBeforeDay(gap: string, rest: string)
    requires |gap| >= 1 && forall i :: 0 <= i < |gap| ==> IsSpace(gap[i])
    requires AfterFirstGap(rest) && IsDigit(rest[0])
    ensures AfterLetters(gap + rest)
  {
    assert !IsSpace(rest[0]);
    SpanOfRun(gap, rest, Space);
  }

  lemma LettersBeforeGap(letters: string, rest: string)
    requires forall i :: 0 <= i < |letters| ==> IsAsciiLetter(letters[i])
    requires AfterLetters(rest)
    ensures AfterMonth(letters + rest)
  {
    assert rest != [] && IsSpace(rest[0]);
    assert !IsAsciiLetter(rest[0]);
    SpanOfRun(letters, rest, Letter);
  }

  /**
   * A line is a title exactly when it holds a character other than a digit (so it is not
   * empty), is not a date line, and has no release-note token starting at any position.
   */
  lemma TitleLineCharacterised(line: string)
    ensures IsEpisodeTitleLine(line) <==>
      && (exists i :: 0 <= i < |line| && !IsDigit(line[i]))
      && !IsDateLine(line)
      && (forall i :: 0 <= i < |line| ==> !NoteAtStart(line[i..]))
  {
    HasReleaseNoteSomewhere(line);
  }

  /** A release-note token anywhere in a line, in any letter case, rejects the line. */
  lemma ReleaseNoteRejected(line: string, i: nat, j: nat)
    requires i < |line| && j < |ReleaseNotes| && StartsWithFolded(line[i..], ReleaseNotes[j])
    ensures !IsEpisodeTitleLine(line)
  {
    HasReleaseNoteSomewhere(line);
  }

  /** An empty line and a line of digits only are not titles. */
  lemma NumberLineRejected(line: string)
    requires forall i :: 0 <= i < |line| ==> IsDigit(line[i])
    ensures !IsEpisodeTitleLine(line)
  {
  }
}
