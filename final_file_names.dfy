/**
 * final_file_names.py: the final name of every episode file.
 *
 * Each title is stripped of illegal characters in place, a zero-padding tier is chosen from the
 * number of titles plus the episode offset, and the name of episode i is
 * dual-audio prefix + show name + " - " + number + " - " + title, joined with the destination
 * directory and given the extension ".mkv". Movies get neither the show name nor a number.
 */
module FileNames {
  import opened Wrappers
  import opened Strings
  import opened Media

  /** The characters deleted from episode titles, in the order the code tries them. */
  const IllegalChars: seq<char> := ['<', '>', ':', '"', '/', '\\', '|', '?', '*', '#', '%', '!', '@']

  function CharSet(cs: seq<char>): set<char> {
    set c | c in cs
  }

  /** An episode title with every illegal character deleted. */
  function SanitizedTitle(episode: string): string {
    StripChars(episode, CharSet(IllegalChars))
  }

  /** Every title sanitised, each at its own position. */
  function SanitizeAll(titles: seq<string>): seq<string> {
    seq(|titles|, i requires 0 <= i < |titles| => SanitizedTitle(titles[i]))
  }

  /** Before the loop of sanitize_episode_name has deleted anything, the title is whole. */
  lemma SanitizeNoneYet(episode: string)
    ensures StripChars(episode, CharSet(IllegalChars[..0])) == episode
  {
    assert CharSet(IllegalChars[..0]) == {};
    StripCharsNoop(episode, {});
  }

  /** Deleting the next illegal character after the first `k` deletes the first `k + 1`. */
  lemma SanitizeOneMore(episode: string, k: nat)
    requires k < |IllegalChars|
    ensures StripChars(StripChars(episode, CharSet(IllegalChars[..k])), {IllegalChars[k]})
         == StripChars(episode, CharSet(IllegalChars[..k + 1]))
  {
    StripCharsCompose(episode, CharSet(IllegalChars[..k]), {IllegalChars[k]});
    assert IllegalChars[..k + 1] == IllegalChars[..k] + [IllegalChars[k]];
    assert CharSet(IllegalChars[..k + 1]) == CharSet(IllegalChars[..k]) + {IllegalChars[k]};
  }

  /** `str.replace` is skipped for a character that does not occur: deleting it would change nothing. */
  lemma AbsentCharKept(s: string, ch: char)
    requires ch !in s
    ensures StripChars(s, {ch}) == s
  {
    StripCharsNoop(s, {ch});
  }

  /**
   * A sanitised title holds no illegal character, holds every other character of the title as
   * often as the title does and in the same order, and sanitising it again changes nothing.
   */
  lemma SanitizedTitleProperties(episode: string)
    ensures forall i :: 0 <= i < |SanitizedTitle(episode)| ==> SanitizedTitle(episode)[i] !in IllegalChars
    ensures forall c :: c !in IllegalChars ==> multiset(SanitizedTitle(episode))[c] == multiset(episode)[c]
    ensures IsSubsequence(SanitizedTitle(episode), episode)
    ensures SanitizedTitle(SanitizedTitle(episode)) == SanitizedTitle(episode)
  {
    StripCharsKeepsOthers(episode, CharSet(IllegalChars));
    StripCharsNoop(SanitizedTitle(episode), CharSet(IllegalChars));
  }

  /**
   * determine_episode_0_offset: the zero-padding tier for `count` titles after `offset`.
   * The branch for more than 999 comes after the branch for more than 99, so it never
   * runs and the tier is never 2.
   */
  function DetermineEpisode0Offset(count: nat, offset: nat): (tier: int)
    ensures tier == 0 <==> count + offset <= 99
    ensures tier == 1 <==> count + offset > 99
    ensures tier != 2
  {
    var total := count + offset;
    if total <= 99 then 0
    else if total > 99 then 1
    else if total > 999 then 2
    else assert false; 0
  }

  /**
   * add_0s_to_proper_name: the numbering segment of the episode at 0-based position `count`.
   * Its number is `count + offset + 1`; the tier says how many zeros its short forms get.
   */
  function AddZerosToProperName(tier: int, count: nat, offset: nat, mediaType: string, name: string): (r: string)
    ensures mediaType == "Movie" ==> r == name
  {
    var n := count + offset + 1;
    var d := DecimalString(n);
    if mediaType == "Movie" then name
    else if tier == 0 && n < 10 then name + Numbered("0" + d)
    else if tier == 0 && n >= 10 then name + Numbered(d)
    else if tier == 1 && n < 10 then name + Numbered("00" + d)
    else if tier == 1 && n < 100 then name + Numbered("0" + d)
    else if tier == 1 && n >= 100 then name + Numbered(d)
    else if tier == 2 && n < 10 then name + Numbered("000" + d)
    else if tier == 2 && n < 100 then name + Numbered("00" + d)
    else if tier == 2 && n < 1000 then name + Numbered("0" + d)
    else if tier == 2 && n >= 1000 then name + Numbered(d)
    else name
  }

  /** The numbering segment `f" - {number} - "` around the (possibly zero-led) episode number. */
  function Numbered(number: string): string {
    " - " + number + " - "
  }

  /** The numbering segment is only ever appended: the name built so far is a prefix of the result. */
  lemma AddZerosExtends(tier: int, count: nat, offset: nat, mediaType: string, name: string)
    ensures var r := AddZerosToProperName(tier, count, offset, mediaType, name);
      |r| >= |name| && r[..|name|] == name
  {
  }

  /** determine_show_name: the show name is appended unless the item is a movie. */
  function DetermineShowName(mediaType: string, showName: string, name: string): string {
    if mediaType == "Movie" then name
    else name + showName
  }

  /** The show-name step keeps the name built so far and appends the show name, or nothing for a movie. */
  lemma ShowNameSegment(mediaType: string, showName: string, name: string)
    ensures var r := DetermineShowName(mediaType, showName, name);
      && |r| >= |name| && r[..|name|] == name
      && r[|name|..] == if mediaType == "Movie" then "" else showName
  {
  }

  /** determine_dual_audio: the name's prefix, from the dictionary's "Dual Audio" value. */
  function DetermineDualAudio(dualAudio: string): (prefix: string)
    ensures prefix == "[Dual Audio] " <==> dualAudio == "Dual Audio"
    ensures prefix == "" || prefix == "[Dual Audio] "
  {
    if dualAudio == "Dual Audio" then "[Dual Audio] "
    else if dualAudio == "" then ""
    else ""
  }

  /** The name of the episode at 0-based `index`, as one iteration of create_detailed_episode_names builds it. */
  function DetailedEpisodeName(dualAudio: string, showName: string, mediaType: string, tier: int,
                               index: nat, offset: nat, title: string): string
  {
    var name := DetermineDualAudio(dualAudio);
    var name := DetermineShowName(mediaType, showName, name);
    var name := AddZerosToProperName(tier, index, offset, mediaType, name);
    name + title
  }

  /** The names create_detailed_episode_names appends, one per title and in the same order. */
  function EpisodeNames(dualAudio: string, showName: string, mediaType: string, offset: nat,
                        titles: seq<string>): seq<string>
  {
    var tier := DetermineEpisode0Offset(|titles|, offset);
    seq(|titles|, i requires 0 <= i < |titles| =>
      DetailedEpisodeName(dualAudio, showName, mediaType, tier, i, offset, titles[i]))
  }

  /** The paths create_final_file_names appends: each name joined with the destination, plus ".mkv". */
  function FilePaths(destination: string, names: seq<string>): seq<string> {
    seq(|names|, i requires 0 <= i < |names| => JoinPath(destination, names[i] + ".mkv"))
  }

  /**
   * For every item but a movie, tiers 0 to 2 left-pad the number with zeros to 2, 3 and 4
   * digits; a number already that long or longer is written out in full. A larger tier adds
   * nothing.
   */
  lemma NumberingSegment(tier: int, count: nat, offset: nat, mediaType: string, name: string)
    requires mediaType != "Movie"
    ensures AddZerosToProperName(tier, count, offset, mediaType, name)
      == if 0 <= tier <= 2 then name + Numbered(ZeroPad(DecimalString(count + offset + 1), tier + 2)) else name
  {
    var n := count + offset + 1;
    var d := DecimalString(n);
    DigitCount(n);
    assert Zeros(1) == "0" && Zeros(2) == "00" && Zeros(3) == "000";
  }

  /** Numbers of 1000 or more are never truncated: tier 1 then writes them in full. */
  lemma ThousandsUnpadded(n: nat)
    requires n >= 1000
    ensures ZeroPad(DecimalString(n), 3) == DecimalString(n)
    ensures ZeroPad(DecimalString(n), 2) == DecimalString(n)
  {
    DigitCount(n);
  }

  /** A movie's name is the dual-audio prefix followed by the title: no show name and no number. */
  lemma MovieEpisodeName(dualAudio: string, showName: string, offset: nat, titles: seq<string>, i: nat)
    requires i < |titles|
    ensures |EpisodeNames(dualAudio, showName, "Movie", offset, titles)| == |titles|
    ensures EpisodeNames(dualAudio, showName, "Movie", offset, titles)[i] == DetermineDualAudio(dualAudio) + titles[i]
  {
  }

  /**
   * Any other item's name is prefix + show name + " - " + N + " - " + title with N = i + offset + 1,
   * padded to 2 digits when titles plus offset are at most 99 and to 3 digits otherwise.
   */
  lemma NumberedEpisodeName(dualAudio: string, showName: string, mediaType: string, offset: nat,
                            titles: seq<string>, i: nat)
    requires mediaType != "Movie" && i < |titles|
    ensures |EpisodeNames(dualAudio, showName, mediaType, offset, titles)| == |titles|
    ensures EpisodeNames(dualAudio, showName, mediaType, offset, titles)[i]
      == DetermineDualAudio(dualAudio) + showName
         + Numbered(ZeroPad(DecimalString(i + offset + 1), if |titles| + offset <= 99 then 2 else 3))
         + titles[i]
  {
    var tier := DetermineEpisode0Offset(|titles|, offset);
    var names := EpisodeNames(dualAudio, showName, mediaType, offset, titles);
    assert names[i] == DetailedEpisodeName(dualAudio, showName, mediaType, tier, i, offset, titles[i]);
    DetailedNumbered(dualAudio, showName, mediaType, tier, i, offset, titles[i]);
  }

  /** One numbered name: prefix, show name, the number padded to the tier's width, title. */
  lemma DetailedNumbered(dualAudio: string, showName: string, mediaType: string, tier: int,
                         index: nat, offset: nat, title: string)
    requires mediaType != "Movie" && 0 <= tier <= 2
    ensures DetailedEpisodeName(dualAudio, showName, mediaType, tier, index, offset, title)
      == DetermineDualAudio(dualAudio) + showName + Numbered(ZeroPad(DecimalString(index + offset + 1), tier + 2)) + title
  {
    NumberingSegment(tier, index, offset, mediaType, DetermineDualAudio(dualAudio) + showName);
  }

  /**
   * Names that agree up to their numbering segments, whose numbers are two different digit runs,
   * are different. Runs of one length differ inside the segment; when one run is shorter, the
   * space that follows it faces a digit of the longer one.
   */
  lemma SegmentsDiffer(head: string, p: string, q: string, x: string, y: string)
    requires p != q
    requires forall i :: 0 <= i < |p| ==> IsDigit(p[i])
    requires forall i :: 0 <= i < |q| ==> IsDigit(q[i])
    ensures head + Numbered(p) + x != head + Numbered(q) + y
  {
    var a, b := head + Numbered(p) + x, head + Numbered(q) + y;
    var k := |head| + 3;
    if |p| == |q| {
      assert a[k..k + |p|] == p;
      assert b[k..k + |q|] == q;
    } else if |p| < |q| {
      assert a[k + |p|] == ' ';
      assert b[k + |p|] == q[|p|];
    } else {
      assert b[k + |q|] == ' ';
      assert a[k + |q|] == p[|q|];
    }
  }

  /** Two different numbers, zero-padded to one width, are two different digit runs. */
  lemma PaddedNumbersDiffer(m: nat, n: nat, width: nat)
    requires m != n
    ensures var p, q := ZeroPad(DecimalString(m), width), ZeroPad(DecimalString(n), width);
      && p != q
      && (forall i :: 0 <= i < |p| ==> IsDigit(p[i]))
      && (forall i :: 0 <= i < |q| ==> IsDigit(q[i]))
  {
    ZeroPadDecimal(m, width);
    ZeroPadDecimal(n, width);
  }

  /**
   * Two different episodes of a series never get the same name, whatever their titles: their
   * numbers differ, and a zero-padded number still reads back as itself. This holds beyond 999
   * too, where tier 1 prints the numbers unpadded and of different lengths.
   */
  lemma {:induction false} EpisodeNamesDistinct(dualAudio: string, showName: string, mediaType: string, offset: nat,
                             titles: seq<string>, i: nat, j: nat)
    requires mediaType != "Movie"
    requires i < |titles| && j < |titles| && i != j
    ensures EpisodeNames(dualAudio, showName, mediaType, offset, titles)[i]
         != EpisodeNames(dualAudio, showName, mediaType, offset, titles)[j]
  {
    var w := if |titles| + offset <= 99 then 2 else 3;
    var head := DetermineDualAudio(dualAudio) + showName;
    NumberedEpisodeName(dualAudio, showName, mediaType, offset, titles, i);
    NumberedEpisodeName(dualAudio, showName, mediaType, offset, titles, j);
    PaddedNumbersDiffer(i + offset + 1, j + offset + 1, w);
    SegmentsDiffer(head, ZeroPad(DecimalString(i + offset + 1), w), ZeroPad(DecimalString(j + offset + 1), w),
                   titles[i], titles[j]);
  }

  /** The same holds of the file paths, which join the names with one destination directory. */
  lemma FilePathsDistinct(destination: string, dualAudio: string, showName: string, mediaType: string,
                          offset: nat, titles: seq<string>, i: nat, j: nat)
    requires mediaType != "Movie"
    requires i < |titles| && j < |titles| && i != j
    ensures var paths := FilePaths(destination, EpisodeNames(dualAudio, showName, mediaType, offset, titles));
      |paths| == |titles| && paths[i] != paths[j]
  {
    var names := EpisodeNames(dualAudio, showName, mediaType, offset, titles);
    EpisodeNamesDistinct(dualAudio, showName, mediaType, offset, titles, i, j);
    assert names[i] + ".mkv" != names[j] + ".mkv" by {
      assert (names[i] + ".mkv")[..|names[i]|] == names[i];
      assert (names[j] + ".mkv")[..|names[j]|] == names[j];
    }
    JoinPathInjective(destination, names[i] + ".mkv", names[j] + ".mkv");
  }

  /**
   * The unit test: a TV show without a "Dual Audio" entry, offset 0 and one title ("Episode 1"
   * under "Example Show") gives exactly one path, show - 01 - title.mkv, and a name without
   * "[Dual Audio]" (indeed without '[' when neither the show name nor the title holds one).
   */
  lemma ExampleShowFileName(destination: string, show: string, title: string)
    requires forall i :: 0 <= i < |title| ==> title[i] !in IllegalChars
    ensures var names := EpisodeNames(None.GetOr(""), show, "TV", 0, SanitizeAll([title]));
      && names == [show + " - 01 - " + title]
      && FilePaths(destination, names) == [JoinPath(destination, show + " - 01 - " + title + ".mkv")]
      && ('[' !in show && '[' !in title ==> '[' !in names[0])
  {
    assert SanitizeAll([title]) == [title] by {
      StripCharsNoop(title, CharSet(IllegalChars));
    }
    ExampleEpisodeName(show, title);
    var name := show + " - 01 - " + title;
    assert FilePaths(destination, [name]) == [JoinPath(destination, name + ".mkv")];
  }

  /** With no dual-audio entry and offset 0, the only episode of a show is numbered "01". */
  lemma ExampleEpisodeName(show: string, title: string)
    ensures EpisodeNames(None.GetOr(""), show, "TV", 0, [title]) == [show + " - 01 - " + title]
  {
    var names := EpisodeNames("", show, "TV", 0, [title]);
    assert DetermineEpisode0Offset(1, 0) == 0;
    assert names[0] == DetailedEpisodeName("", show, "TV", 0, 0, 0, title);
    assert DetermineShowName("TV", show, DetermineDualAudio("")) == show;
    assert AddZerosToProperName(0, 0, 0, "TV", show) == show + Numbered("01") by {
      assert DecimalString(1) == "1";
    }
    assert names[0] == show + " - 01 - " + title;
  }

  /** The object final_file_names.py builds: its fields and the two lists its loops fill. */
  class FinalFileNames {
    const destinationDirectory: string
    const mediaDictionary: MediaDictionary
    const dualAudio: string
    const showName: string
    const mediaType: string
    const offset: nat
    /** The dictionary's "Episode List" object itself, which the constructor sanitises in place. */
    const episodeList: array<string>
    var finalEpisodeNames: seq<string>
    var finalFileNames: seq<string>

    /**
     * Reads the dictionary, sanitises the caller's title list in place, then builds one name
     * and one path per title, in order.
     */
    constructor (destinationDirectory: string, mediaDictionary: MediaDictionary, episodeList: array<string>)
      modifies episodeList
      ensures this.destinationDirectory == destinationDirectory
      ensures this.mediaDictionary == mediaDictionary
      ensures dualAudio == mediaDictionary.dualAudio.GetOr("")
      ensures showName == mediaDictionary.showName && mediaType == mediaDictionary.mediaType
      ensures offset == mediaDictionary.episodeOffset
      ensures this.episodeList == episodeList
      ensures episodeList[..] == SanitizeAll(old(episodeList[..]))
      ensures finalEpisodeNames == EpisodeNames(dualAudio, showName, mediaType, offset, episodeList[..])
      ensures finalFileNames == FilePaths(destinationDirectory, finalEpisodeNames)
    {
      this.destinationDirectory := destinationDirectory;
      this.mediaDictionary := mediaDictionary;
      dualAudio := mediaDictionary.dualAudio.GetOr("");
      showName := mediaDictionary.showName;
      mediaType := mediaDictionary.mediaType;
      offset := mediaDictionary.episodeOffset;
      this.episodeList := episodeList;
      finalEpisodeNames := [];
      finalFileNames := [];
      new;
      SanitizeAllEpisodes();
      ghost var titles := episodeList[..];
      CreateDetailedEpisodeNames();
      ghost var names := finalEpisodeNames;
      assert |names| == |titles|;
      CreateFinalFileNames();
      assert names[..|titles|] == names;
    }

    /** sanitize_episode_name: deletes each illegal character in turn, when it occurs. */
    static method SanitizeEpisodeName(episode: string) returns (r: string)
      ensures r == SanitizedTitle(episode)
    {
      r := episode;
      SanitizeNoneYet(episode);
      for k := 0 to |IllegalChars|
        invariant r == StripChars(episode, CharSet(IllegalChars[..k]))
      {
        var ch := IllegalChars[k];
        SanitizeOneMore(episode, k);
        if ch in r {
          r := StripChars(r, {ch});
        } else {
          AbsentCharKept(r, ch);
        }
      }
      assert IllegalChars[..|IllegalChars|] == IllegalChars;
    }

    /** sanitize_all_episodes: overwrites every title with its sanitised form. */
    method SanitizeAllEpisodes()
      modifies episodeList
      ensures episodeList[..] == SanitizeAll(old(episodeList[..]))
    {
      for i := 0 to episodeList.Length
        invariant forall j :: 0 <= j < i ==> episodeList[j] == SanitizedTitle(old(episodeList[j]))
        invariant forall j :: i <= j < episodeList.Length ==> episodeList[j] == old(episodeList[j])
      {
        var safe := SanitizeEpisodeName(episodeList[i]);
        episodeList[i] := safe;
      }
    }

    /** create_detailed_episode_names: appends one name per title, in order. */
    method CreateDetailedEpisodeNames()
      modifies this`finalEpisodeNames
      ensures finalEpisodeNames
        == old(finalEpisodeNames) + EpisodeNames(dualAudio, showName, mediaType, offset, episodeList[..])
    {
      var tier := DetermineEpisode0Offset(episodeList.Length, offset);
      ghost var titles := episodeList[..];
      ghost var names := EpisodeNames(dualAudio, showName, mediaType, offset, titles);
      for i := 0 to episodeList.Length
        invariant finalEpisodeNames == old(finalEpisodeNames) + names[..i]
      {
        var detailed := DetermineDualAudio(dualAudio);
        detailed := DetermineShowName(mediaType, showName, detailed);
        detailed := AddZerosToProperName(tier, i, offset, mediaType, detailed);
        assert detailed + episodeList[i] == names[i] by {
          assert episodeList[i] == titles[i];
          assert names[i] == DetailedEpisodeName(dualAudio, showName, mediaType, tier, i, offset, titles[i]);
        }
        finalEpisodeNames := finalEpisodeNames + [detailed + episodeList[i]];
        assert names[..i + 1] == names[..i] + [names[i]];
      }
      assert names[..episodeList.Length] == names;
    }

    /**
     * create_final_file_names: appends one path per title. It indexes the names by the
     * number of titles, so it needs at least that many names.
     */
    method CreateFinalFileNames()
      requires |finalEpisodeNames| >= episodeList.Length
      modifies this`finalFileNames
      ensures finalFileNames
        == old(finalFileNames) + FilePaths(destinationDirectory, finalEpisodeNames[..episodeList.Length])
    {
      var names := finalEpisodeNames[..episodeList.Length];
      ghost var paths := FilePaths(destinationDirectory, names);
      for i := 0 to |names|
        invariant finalFileNames == old(finalFileNames) + paths[..i]
      {
        finalFileNames := finalFileNames + [JoinPath(destinationDirectory, names[i] + ".mkv")];
        assert paths[..i + 1] == paths[..i] + [paths[i]];
      }
      assert paths[..|names|] == paths;
    }
  }
}
