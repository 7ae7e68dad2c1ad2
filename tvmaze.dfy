/**
 * episode_extractor.py, the online lookup: what fetch_episode_titles_from_tvmaze does with the
 * episodes of a TVmaze reply (keep the requested season, sort by episode number, sanitise the
 * names), and how fetch_episode_names_online stores the result.
 */
module Tvmaze {
  import opened Wrappers
  import opened Strings
  import opened Media
  import opened WindowsSafe
  import opened Extractor

  // ---------------------------------------------------------------------------
  // Episode records
  // ---------------------------------------------------------------------------

  /** The "name" of an episode record as `episode.get("name", "")` sees it. */
  datatype JsonName = Absent | Null | Text(text: string)

  /**
   * One record of the reply's "_embedded"/"episodes" list. "season" and "number" are None when
   * the key is absent or its value is null.
   */
  datatype Episode = Episode(season: Option<int>, number: Option<int>, name: JsonName)

  /** `str(episode.get("name", ""))`: an absent name is "", a null one prints as "None". */
  function NameText(name: JsonName): string {
    match name
    case Absent => ""
    case Null => "None"
    case Text(s) => s
  }

  /** The sort key `episode.get("number") or 0`: a missing or null number sorts as 0. */
  function SortKey(e: Episode): int {
    e.number.GetOr(0)
  }

  /** The title one episode contributes: its name as text, stripped and made safe. */
  function EpisodeTitle(e: Episode): string {
    MakeWindowsSafe(Strip(NameText(e.name)))
  }

  // ---------------------------------------------------------------------------
  // Keeping the requested season
  // ---------------------------------------------------------------------------

  /** `[episode for episode in episodes if episode.get("season") == season_number]`. */
  function SeasonMatches(episodes: seq<Episode>, season: int): seq<Episode> {
    if episodes == [] then []
    else
      var last := episodes[|episodes| - 1];
      SeasonMatches(episodes[..|episodes| - 1], season) + (if last.season == Some(season) then [last] else [])
  }

  /** The matches are exactly the episodes of the requested season, each as often as in the reply. */
  lemma {:induction false} SeasonMatchesExact(episodes: seq<Episode>, season: int)
    ensures forall e: Episode :: e in SeasonMatches(episodes, season) <==> e in episodes && e.season == Some(season)
    ensures forall e: Episode :: e.season == Some(season) ==>
      multiset(SeasonMatches(episodes, season))[e] == multiset(episodes)[e]
  {
    if episodes != [] {
      var init := episodes[..|episodes| - 1];
      SeasonMatchesExact(init, season);
      assert episodes == init + [episodes[|episodes| - 1]];
    }
  }

  // ---------------------------------------------------------------------------
  // The stable sort by episode number
  // ---------------------------------------------------------------------------

  /** Episode numbers never decrease along the list. */
  predicate SortedByNumber(s: seq<Episode>) {
    forall i, j :: 0 <= i < j < |s| ==> SortKey(s[i]) <= SortKey(s[j])
  }

  /** The episodes of `s` whose sort key is `k`, in order. */
  function WithKey(s: seq<Episode>, k: int): seq<Episode> {
    if s == [] then []
    else WithKey(s[..|s| - 1], k) + (if SortKey(s[|s| - 1]) == k then [s[|s| - 1]] else [])
  }

  /** Puts `e` behind every episode of `sorted` whose key is not larger, before the larger ones. */
  function InsertByNumber(sorted: seq<Episode>, e: Episode): seq<Episode> {
    if sorted == [] || SortKey(sorted[|sorted| - 1]) <= SortKey(e) then sorted + [e]
    else InsertByNumber(sorted[..|sorted| - 1], e) + [sorted[|sorted| - 1]]
  }

  /** `list.sort(key=...)`: a stable sort by SortKey. */
  function SortByNumber(s: seq<Episode>): seq<Episode> {
    if s == [] then [] else InsertByNumber(SortByNumber(s[..|s| - 1]), s[|s| - 1])
  }

  /** Inserting into a sorted list keeps it sorted. */
  lemma {:induction false} InsertSorted(sorted: seq<Episode>, e: Episode)
    requires SortedByNumber(sorted)
    ensures SortedByNumber(InsertByNumber(sorted, e))
  {
    if sorted != [] && SortKey(sorted[|sorted| - 1]) > SortKey(e) {
      var init, last := sorted[..|sorted| - 1], sorted[|sorted| - 1];
      InsertSorted(init, e);
      InsertBound(init, e, SortKey(last));
    }
  }

  /** Inserting an episode whose key is at most `bound` into a list bounded by `bound` keeps the bound. */
  lemma {:induction false} InsertBound(sorted: seq<Episode>, e: Episode, bound: int)
    requires SortKey(e) <= bound
    requires forall i :: 0 <= i < |sorted| ==> SortKey(sorted[i]) <= bound
    ensures forall i :: 0 <= i < |InsertByNumber(sorted, e)| ==> SortKey(InsertByNumber(sorted, e)[i]) <= bound
  {
    if sorted != [] && SortKey(sorted[|sorted| - 1]) > SortKey(e) {
      InsertBound(sorted[..|sorted| - 1], e, bound);
    }
  }

  /** Inserting adds exactly the one episode. */
  lemma {:induction false} InsertPermutes(sorted: seq<Episode>, e: Episode)
    ensures multiset(InsertByNumber(sorted, e)) == multiset(sorted) + multiset{e}
  {
    if sorted != [] && SortKey(sorted[|sorted| - 1]) > SortKey(e) {
      var init, last := sorted[..|sorted| - 1], sorted[|sorted| - 1];
      InsertPermutes(init, e);
      assert sorted == init + [last];
    }
  }

  /** Keeping the episodes of one key distributes over concatenation. */
  lemma {:induction false} WithKeyAppend(a: seq<Episode>, b: seq<Episode>, k: int)
    ensures WithKey(a + b, k) == WithKey(a, k) + WithKey(b, k)
  {
    if b == [] {
      assert a + b == a;
    } else {
      WithKeyAppend(a, b[..|b| - 1], k);
      assert (a + b)[..|a + b| - 1] == a + b[..|b| - 1];
      assert (a + b)[|a + b| - 1] == b[|b| - 1];
    }
  }

  /** The inserted episode lands behind every episode of its own key: the order within a key is kept. */
  lemma {:induction false} InsertStable(sorted: seq<Episode>, e: Episode, k: int)
    ensures WithKey(InsertByNumber(sorted, e), k) == WithKey(sorted, k) + (if SortKey(e) == k then [e] else [])
  {
    if sorted == [] || SortKey(sorted[|sorted| - 1]) <= SortKey(e) {
      WithKeyAppend(sorted, [e], k);
      assert [e][..0] == [];
    } else {
      var init, last := sorted[..|sorted| - 1], sorted[|sorted| - 1];
      InsertStable(init, e, k);
      WithKeyAppend(InsertByNumber(init, e), [last], k);
      assert [last][..0] == [];
    }
  }

  /** The sorted list is sorted by number. */
  lemma {:induction false} SortByNumberSorted(s: seq<Episode>)
    ensures SortedByNumber(SortByNumber(s))
  {
    if s != [] {
      SortByNumberSorted(s[..|s| - 1]);
      InsertSorted(SortByNumber(s[..|s| - 1]), s[|s| - 1]);
    }
  }

  /** The sorted list is a permutation of the list. */
  lemma {:induction false} SortByNumberPermutes(s: seq<Episode>)
    ensures multiset(SortByNumber(s)) == multiset(s)
  {
    if s != [] {
      SortByNumberPermutes(s[..|s| - 1]);
      InsertPermutes(SortByNumber(s[..|s| - 1]), s[|s| - 1]);
      assert s == s[..|s| - 1] + [s[|s| - 1]];
    }
  }

  /** The sort is stable: episodes with equal numbers keep their order from the reply. */
  lemma {:induction false} SortByNumberStable(s: seq<Episode>, k: int)
    ensures WithKey(SortByNumber(s), k) == WithKey(s, k)
  {
    if s != [] {
      SortByNumberStable(s[..|s| - 1], k);
      InsertStable(SortByNumber(s[..|s| - 1]), s[|s| - 1], k);
    }
  }

  /**
   * Where InsertByNumber puts `e`: at the one position `p` with no larger key before it and only
   * larger keys from it on.
   */
  lemma {:induction false} InsertAt(sorted: seq<Episode>, e: Episode, p: nat)
    requires p <= |sorted|
    requires forall i :: 0 <= i < p ==> SortKey(sorted[i]) <= SortKey(e)
    requires forall i :: p <= i < |sorted| ==> SortKey(sorted[i]) > SortKey(e)
    ensures InsertByNumber(sorted, e) == sorted[..p] + [e] + sorted[p..]
  {
    if sorted != [] {
      var n := |sorted|;
      var init, last := sorted[..n - 1], sorted[n - 1];
      if SortKey(last) <= SortKey(e) {
        assert p == n;
      } else {
        InsertAt(init, e, p);
        assert init[..p] == sorted[..p];
        assert init[p..] + [last] == sorted[p..];
      }
    }
  }

  /**
   * `season_matches.sort(key=lambda episode: episode.get("number") or 0)`: an insertion sort
   * in place.
   */
  method SortEpisodesByNumber(a: array<Episode>)
    modifies a
    ensures a[..] == SortByNumber(old(a[..]))
  {
    ghost var original := a[..];
    for i := 0 to a.Length
      invariant a[..i] == SortByNumber(original[..i])
      invariant a[i..] == original[i..]
    {
      SortByNumberSorted(original[..i]);
      assert a[i] == original[i];
      assert a[i + 1..] == original[i + 1..] by {
        assert a[i + 1..] == a[i..][1..];
        assert original[i + 1..] == original[i..][1..];
      }
      InsertNext(a, i);
      assert SortByNumber(original[..i + 1]) == InsertByNumber(SortByNumber(original[..i]), original[i]) by {
        assert original[..i + 1][..i] == original[..i];
      }
    }
    assert original[..a.Length] == original;
  }

  /**
   * One step of the insertion sort: `a[i]` moves left past the episodes of the sorted prefix
   * `a[..i]` with a strictly larger number, which keeps episodes of equal number in order.
   */
  method InsertNext(a: array<Episode>, i: nat)
    requires i < a.Length && SortedByNumber(a[..i])
    modifies a
    ensures a[..i + 1] == InsertByNumber(old(a[..i]), old(a[i]))
    ensures a[i + 1..] == old(a[i + 1..])
  {
    ghost var sorted := a[..i];
    var e := a[i];
    var j := i;
    while j > 0 && SortKey(a[j - 1]) > SortKey(e)
      invariant 0 <= j <= i
      invariant forall k :: 0 <= k < j ==> a[k] == sorted[k]
      invariant forall k :: j < k <= i ==> a[k] == sorted[k - 1]
      invariant forall k :: i < k < a.Length ==> a[k] == old(a[k])
      invariant forall k :: j <= k < i ==> SortKey(sorted[k]) > SortKey(e)
    {
      a[j] := a[j - 1];
      j := j - 1;
    }
    assert j > 0 ==> sorted[j - 1] == a[j - 1];
    a[j] := e;
    assert a[i + 1..] == old(a[i + 1..]) by {
      assert forall k :: i < k < a.Length ==> a[k] == old(a[k]);
    }
    InsertionPlaced(a[..i + 1], sorted, e, j);
  }

  /**
   * The list the inner loop leaves: `sorted` with `e` at position `j`, the larger keys after it
   * shifted one place on, is the insertion of `e` into `sorted`.
   */
  lemma InsertionPlaced(result: seq<Episode>, sorted: seq<Episode>, e: Episode, j: nat)
    requires j <= |sorted| && |result| == |sorted| + 1 && SortedByNumber(sorted)
    requires forall k :: 0 <= k < j ==> result[k] == sorted[k]
    requires result[j] == e
    requires forall k :: j < k < |result| ==> result[k] == sorted[k - 1]
    requires forall k :: j <= k < |sorted| ==> SortKey(sorted[k]) > SortKey(e)
    requires j > 0 ==> SortKey(sorted[j - 1]) <= SortKey(e)
    ensures result == InsertByNumber(sorted, e)
  {
    assert forall k :: 0 <= k < j ==> SortKey(sorted[k]) <= SortKey(e) by {
      if j > 0 {
        assert forall k :: 0 <= k < j ==> SortKey(sorted[k]) <= SortKey(sorted[j - 1]);
      }
    }
    InsertAt(sorted, e, j);
    assert result == sorted[..j] + [e] + sorted[j..];
  }

  // ---------------------------------------------------------------------------
  // fetch_episode_titles_from_tvmaze
  // ---------------------------------------------------------------------------

  /** The outcome of the HTTP request: an error (HTTPError, URLError, bad JSON), or the episode list. */
  datatype TvmazeReply = Failed(reason: string) | Reply(episodes: seq<Episode>)

  /** Why fetch_episode_titles_from_tvmaze raises. */
  datatype FetchError = ShowNameRequired | LookupError(reason: string)

  /** The titles of one season as the lookup returns them: matched, sorted, sanitised, empties dropped. */
  function SeasonTitles(episodes: seq<Episode>, season: int): seq<string> {
    KeepNonEmpty(SortByNumber(SeasonMatches(episodes, season)), EpisodeTitle)
  }

  /**
   * fetch_episode_titles_from_tvmaze: an empty show name is refused before any request; a failed
   * request is passed on; otherwise the season's episodes are sorted in place and their names
   * kept when they sanitise to something.
   */
  method FetchEpisodeTitlesFromTvmaze(showName: string, season: int, reply: TvmazeReply)
    returns (r: Result<seq<string>, FetchError>)
    ensures showName == "" ==> r == Failure(ShowNameRequired)
    ensures showName != "" && reply.Failed? ==> r == Failure(LookupError(reply.reason))
    ensures showName != "" && reply.Reply? ==> r == Success(SeasonTitles(reply.episodes, season))
  {
    if showName == "" {
      return Failure(ShowNameRequired);
    }
    if reply.Failed? {
      return Failure(LookupError(reply.reason));
    }
    var seasonMatches := SeasonMatches(reply.episodes, season);
    var list := new Episode[|seasonMatches|](i requires 0 <= i < |seasonMatches| => seasonMatches[i]);
    assert list[..] == seasonMatches;
    SortEpisodesByNumber(list);
    var titles := SanitizeNames(list[..]);
    assert titles == SeasonTitles(reply.episodes, season);
    return Success(titles);
  }

  /** The loop of fetch_episode_titles_from_tvmaze over the sorted matches: keep each non-empty safe name. */
  method SanitizeNames(sorted: seq<Episode>) returns (titles: seq<string>)
    ensures titles == KeepNonEmpty(sorted, EpisodeTitle)
  {
    titles := [];
    for i := 0 to |sorted|
      invariant titles == KeepNonEmpty(sorted[..i], EpisodeTitle)
    {
      KeepStep(sorted, i, EpisodeTitle);
      var name := MakeWindowsSafe(Strip(NameText(sorted[i].name)));
      if name != "" {
        titles := titles + [name];
      }
    }
    assert sorted[..|sorted|] == sorted;
  }

  /** Every looked-up title is a safe title. */
  lemma SeasonTitlesSafe(episodes: seq<Episode>, season: int)
    ensures forall i :: 0 <= i < |SeasonTitles(episodes, season)| ==> SafeTitle(SeasonTitles(episodes, season)[i])
  {
    KeptTitlesSafe(SortByNumber(SeasonMatches(episodes, season)));
  }

  /** Whatever list of episodes the names are kept from, every kept title is safe. */
  lemma KeptTitlesSafe(sorted: seq<Episode>)
    ensures forall i :: 0 <= i < |KeepNonEmpty(sorted, EpisodeTitle)| ==> SafeTitle(KeepNonEmpty(sorted, EpisodeTitle)[i])
  {
    forall j | 0 <= j < |sorted| && EpisodeTitle(sorted[j]) != "" ensures SafeTitle(EpisodeTitle(sorted[j])) {
      SafeOutput(Strip(NameText(sorted[j].name)));
    }
    KeepAll(sorted, EpisodeTitle, SafeTitle);
  }

  /** `t` is the title of an episode of the season and, apart from ' ' and '_', made of that episode's name's characters. */
  predicate FromSeasonEpisode(t: string, episodes: seq<Episode>, season: int) {
    exists e :: e in episodes && e.season == Some(season) && t == EpisodeTitle(e) && DrawnFrom(t, NameText(e.name))
  }

  /**
   * Every looked-up title is the title of an episode of the requested season, and apart from
   * ' ' and '_' holds only characters of that episode's name.
   */
  lemma SeasonTitlesSource(episodes: seq<Episode>, season: int)
    ensures forall i :: 0 <= i < |SeasonTitles(episodes, season)| ==>
      FromSeasonEpisode(SeasonTitles(episodes, season)[i], episodes, season)
  {
    var matches := SeasonMatches(episodes, season);
    var sorted := SortByNumber(matches);
    assert forall e :: e in sorted ==> e in episodes && e.season == Some(season) by {
      SortByNumberPermutes(matches);
      SeasonMatchesExact(episodes, season);
      assert forall e :: e in sorted ==> e in multiset(matches);
    }
    KeptTitlesSource(sorted, episodes, season);
  }

  /** A title kept from episodes of the requested season comes from one of them. */
  lemma KeptTitlesSource(sorted: seq<Episode>, episodes: seq<Episode>, season: int)
    requires forall e :: e in sorted ==> e in episodes && e.season == Some(season)
    ensures forall i :: 0 <= i < |KeepNonEmpty(sorted, EpisodeTitle)| ==>
      FromSeasonEpisode(KeepNonEmpty(sorted, EpisodeTitle)[i], episodes, season)
  {
    var p := t => FromSeasonEpisode(t, episodes, season);
    forall j | 0 <= j < |sorted| && EpisodeTitle(sorted[j]) != "" ensures p(EpisodeTitle(sorted[j])) {
      assert sorted[j] in sorted;
      SeasonEpisodeTitle(sorted[j], episodes, season);
    }
    KeepAll(sorted, EpisodeTitle, p);
  }

  /** The title of an episode of the season is one of the season's titles in the sense above. */
  lemma SeasonEpisodeTitle(e: Episode, episodes: seq<Episode>, season: int)
    requires e in episodes && e.season == Some(season)
    ensures FromSeasonEpisode(EpisodeTitle(e), episodes, season)
  {
    EpisodeTitleCharacters(e);
  }

  /** Every character of `title` is ' ', '_' or a character of `name`. */
  predicate DrawnFrom(title: string, name: string) {
    forall c :: c in title ==> c == ' ' || c == '_' || c in name
  }

  /** An episode's title is made of its name's characters, apart from ' ' and the '_' of a device name. */
  lemma EpisodeTitleCharacters(e: Episode)
    ensures DrawnFrom(EpisodeTitle(e), NameText(e.name))
  {
    MakeWindowsSafeProperties(Strip(NameText(e.name)));
    StripFromString(NameText(e.name));
  }

  /** An episode whose name is null gets the title "None", which is safe. */
  lemma NullNameTitle(e: Episode)
    requires e.name == Null
    ensures EpisodeTitle(e) == "None"
  {
    assert Alphanumeric("None");
    assert !IsDeviceName("None");
    PlainNameTitle(e, "None");
  }

  /** A name of letters and digits that is no device name is the episode's title unchanged. */
  lemma PlainNameTitle(e: Episode, t: string)
    requires NameText(e.name) == t && t != [] && Alphanumeric(t) && !IsDeviceName(t)
    ensures EpisodeTitle(e) == t
  {
    AlphanumericClean(t);
    StripNoop(t);
    SafeNameUnchanged(t);
  }

  /** An episode without a name contributes no title. */
  lemma AbsentNameDropped(e: Episode)
    requires e.name == Absent
    ensures EpisodeTitle(e) == ""
  {
    assert Strip("") == "";
    EmptyNameStaysEmpty();
  }

  // ---------------------------------------------------------------------------
  // fetch_episode_names_online
  // ---------------------------------------------------------------------------

  /** What the "Fetch Episode Names Online" button ends with. */
  datatype FetchOutcome =
    | Skipped                    // no show name or no season: nothing is asked
    | LookupFailed(error: FetchError)
    | NoEpisodes                 // the season has no usable titles
    | Fetched(output: string)    // the comma-joined list shown in the output box

  /**
   * fetch_episode_names_online. `showName` is the stripped show name ("" when missing) and
   * `seasonNumber` the parsed, non-negative season, None when missing or invalid. The session's
   * episode list is replaced only when titles were found: by the titles, reversed when
   * "flipped" is 0.
   */
  method FetchEpisodeNamesOnline(session: MediaSession, showName: string, seasonNumber: Option<int>,
                                 reply: TvmazeReply, flipped: int)
    returns (outcome: FetchOutcome)
    modifies session
    ensures showName == "" || seasonNumber.None? ==> outcome == Skipped
    ensures showName != "" && seasonNumber.Some? && reply.Failed? ==>
      outcome == LookupFailed(LookupError(reply.reason))
    ensures showName != "" && seasonNumber.Some? && reply.Reply? ==>
      var titles := SeasonTitles(reply.episodes, seasonNumber.value);
      outcome == (if titles == [] then NoEpisodes else Fetched(JoinWith(Arranged(titles, flipped), ',')))
    ensures outcome.Fetched? ==>
      && reply.Reply? && seasonNumber.Some?
      && fresh(session.episodeList)
      && session.episodeList[..] == Arranged(SeasonTitles(reply.episodes, seasonNumber.value), flipped)
    ensures !outcome.Fetched? ==> session.episodeList == old(session.episodeList)
  {
    if showName == "" || seasonNumber.None? {
      return Skipped;
    }
    var r := FetchEpisodeTitlesFromTvmaze(showName, seasonNumber.value, reply);
    if r.Failure? {
      return LookupFailed(r.error);
    }
    var titles := r.value;
    if titles == [] {
      return NoEpisodes;
    }
    var list := NewList(titles);
    if flipped == 0 {
      ReverseInPlace(list);
    }
    session.episodeList := list;
    var result := JoinWith(list[..], ',');
    return Fetched(result);
  }
}
