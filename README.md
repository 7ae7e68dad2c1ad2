# Media-Namer naming core, modelled in Dafny

Media-Namer is a desktop tool that renames or hard-links video episode files into a library
layout. This project models the part of it that decides names:

- **final_file_names.py** (module `FileNames`). `FinalFileNames` sanitises the session's episode
  list in place by deleting `< > : " / \ | ? * # % ! @`. It then picks a zero-padding tier from the
  number of titles plus the episode offset. Each episode's name is the `[Dual Audio] ` prefix,
  then the show name, then ` - NN - `, then the title. Each name is joined with the destination
  directory and given `.mkv`. The class keeps its two lists as `seq` fields that append loops
  fill. The episode list is an `array` shared with the caller, as the Python list is.
- **destination_directory.py** (module `Destination`). It builds the `Season NN` folder, the
  library root of each media type, and the `Show [Scene][Res][Source][Video][Audio]` folder. It
  chooses the source directory (Rename) or the joined library path (Hardlink, Preview). The
  module is pure: the object is a datatype that a function builds.
- **episode_extractor.py** (modules `WindowsSafe`, `Extractor`, `Tvmaze`). `make_windows_safe`
  and `is_episode_title_line` are character-level predicates and functions. They hand-write the
  four regular expressions of that file. The comma-list parser, the "Process & Save" pipeline and
  the post-request part of the TVmaze lookup are methods with loops, proved against
  specification functions. The in-place `list.reverse()` and `list.sort()` run on arrays. The
  sort is an insertion sort proved sorted, a permutation and stable.

Shared pieces: `Strings` holds Python's string operations written out (deleting characters,
`strip`, `\s+` collapsing, whitespace `split()`, `splitlines`, `split`/`join`, decimal rendering,
zero padding, `os.path.join`). `Media` holds the media dictionary and the session object whose
"Episode List" is replaced or mutated. `Wrappers` holds `Option` and `Result`.

Points where the code behaves differently from what a reader might expect; the model follows
the code in each:

- The width tier stays as written. The `> 999` branch of `determine_episode_0_offset` comes
  after the `> 99` branch, so it never fires: tier 1 prints numbers of 1000 or more unpadded.
- `make_windows_safe` deletes dots before the reserved-name test. So `com3.txt` becomes `com3txt`
  without `_`.
- The code does not reject a negative season. The model takes the season as a natural number.
- Source-file discovery (source_directory_file_list.py) has no extension filter, although the
  upstream test tests/test_source_directory_file_list.py:22-25 expects only `.mkv` and `.mp4`
  files. Source-file discovery is not part of this model.

## Model

| member | source | states |
|---|---|---|
| FileNames.SanitizedTitleProperties | final_file_names.py:24-30 | A sanitised title holds none of the 13 illegal characters. Every other character survives as often as before, in order. A second pass changes nothing. |
| FileNames.FinalFileNames.SanitizeEpisodeName | final_file_names.py:24-30 | The loop over the illegal characters (replace only when present) yields exactly the title with all of them deleted. |
| FileNames.FinalFileNames.SanitizeAllEpisodes | final_file_names.py:32-36 | Every slot of the shared episode list is overwritten with its sanitised form; the length is unchanged. |
| FileNames.DetermineEpisode0Offset | final_file_names.py:47-55 | The tier is 0 iff titles + offset <= 99 and 1 iff it is > 99. The `> 999` branch is dead, so the tier is never 2. |
| FileNames.AddZerosToProperName | final_file_names.py:57-61 | A movie gets no numbering segment: the name is returned unchanged. |
| FileNames.AddZerosExtends | final_file_names.py:57-87 | The numbering step only appends: the name built so far is a prefix of the result. |
| FileNames.NumberingSegment | final_file_names.py:57-87 | For non-movies, tiers 0, 1 and 2 append ` - N - ` with N = i + offset + 1 zero-padded to 2, 3 and 4 digits, never truncated. Any other tier appends nothing. |
| FileNames.ThousandsUnpadded | final_file_names.py:70-75 | Numbers of 1000 or more come out in full under padding to 2 or 3 digits. |
| FileNames.DetermineShowName | final_file_names.py:89-98 | determine_show_name; ShowNameSegment states its result. |
| FileNames.ShowNameSegment | final_file_names.py:89-98 | The show name is appended after the prefix, except for a movie, where nothing is appended. |
| FileNames.DetermineDualAudio | final_file_names.py:100-108 | The prefix is `[Dual Audio] ` exactly when the value is `Dual Audio`, and `""` otherwise. |
| FileNames.MovieEpisodeName | final_file_names.py:38-44 | A movie's name is the dual-audio prefix followed by the title: no show name, no number. |
| FileNames.NumberedEpisodeName | final_file_names.py:38-44 | Other names are prefix + show + ` - N - ` + title, padded to 2 digits when titles + offset <= 99 and to 3 otherwise. There is one name per title, in order. |
| FileNames.EpisodeNamesDistinct | final_file_names.py:38-87 | Two episodes of a series never share a name, whatever their titles, including numbers of 1000 or more, which tier 1 prints unpadded. |
| FileNames.FilePathsDistinct | final_file_names.py:110-112 | Likewise the joined `.mkv` paths are pairwise distinct. |
| FileNames.ExampleShowFileName | tests/test_final_file_names.py:6-22 | TV, offset 0, no "Dual Audio" key, one title: the result is exactly `[join(dest, "Show - 01 - Title.mkv")]`, with no `[Dual Audio]`. |
| FileNames.FinalFileNames.constructor | final_file_names.py:5-22 | The caller's list is sanitised in place. The names are the specified names of the sanitised titles. The paths are each name joined with the destination plus `.mkv`. A missing "Dual Audio" reads as `""`. |
| FileNames.FinalFileNames.CreateDetailedEpisodeNames | final_file_names.py:38-44 | The append loop adds exactly the specified name of every title, in order. |
| FileNames.FinalFileNames.CreateFinalFileNames | final_file_names.py:110-112 | The append loop adds join(destination, name + `.mkv`) for each of the first len(titles) names, in order. |
| Destination.CreateSeasonPath | destination_directory.py:4-13 | The season folder is empty exactly for a movie. |
| Destination.SeasonFolder | destination_directory.py:4-13 | For non-movies it is `Season ` + the season zero-padded to 2 digits (one leading zero below 10, none from 10), and the number reads back. |
| Destination.SeasonFoldersDiffer | destination_directory.py:9-10 | Different seasons of a series get different folders. |
| Destination.CreateNewBasePath | destination_directory.py:37-46 | TV, Anime and Movie map to fixed `X:\` roots; any other type yields no value (the unbound local raises). |
| Destination.BasePathsDistinct | destination_directory.py:37-46 | The three roots are pairwise different. |
| Destination.CreateMediaPath | destination_directory.py:48-51 | The media folder ends in `]`; MediaPathFields states its layout. |
| Destination.MediaPathFields | destination_directory.py:48-51 | The media folder is show + ` [scene][res][source][video][audio]`; splitting it at `[` gives back each field in order. |
| Destination.CreateDestinationDirectory | destination_directory.py:53-65 | A value is produced exactly for the three modes. Rename gives the source directory verbatim. |
| Destination.NewDestinationDirectory | destination_directory.py:18-34 | A truthy base path is replaced by the media-type root, a falsy one kept. The build fails exactly when a truthy base path meets an unknown type, in every mode. The fields are the three folder builders' results. |
| Destination.RenameKeepsSourceDirectory | destination_directory.py:53-57 | Rename mode yields the source directory whatever the other metadata. |
| Destination.PreviewMatchesHardlink | destination_directory.py:58-65 | Preview and Hardlink succeed together and give the identical directory. |
| Destination.HardlinkLayout | destination_directory.py:28-34 | Hardlink gives root\media folder\season folder. With an empty base path it is media folder\season folder. A movie leaves a trailing separator. |
| WindowsSafe.MakeWindowsSafe | episode_extractor.py:21-27 | make_windows_safe itself; its properties are stated by MakeWindowsSafeProperties and the lemmas below it. |
| WindowsSafe.MakeWindowsSafeProperties | episode_extractor.py:21-27 | The output is `' '.join(x.split())` of the input x with `<>:"/\|?*` and dots deleted: its words in order, each whitespace run between two words turned into exactly one space, none at either end. `_` is appended exactly when that is a device name (any case). The output is clean, and apart from ` ` and `_` every character comes from the input. |
| WindowsSafe.SafeNameShape | episode_extractor.py:21-27 | The result is the cleaned name, followed by `_` exactly when that is a device name. |
| WindowsSafe.SafeNameKeepsOthers | episode_extractor.py:21-27 | Leaving whitespace aside, the result is exactly the input with `<>:"/\|?*` and dots deleted, plus the `_` of a device name. |
| WindowsSafe.SafeNameCounts | episode_extractor.py:21-27 | Every character that is not whitespace, invalid, a dot or `_` occurs in the result exactly as often as in the input. |
| WindowsSafe.CleanName | episode_extractor.py:22-24 | The text tested against the reserved names; CleanNameProperties and CleanNameWords state what it is. |
| WindowsSafe.CleanNameProperties | episode_extractor.py:22-24 | The cleaning steps leave a clean string with no invalid character or dot. It is exactly the words of the input, with the invalid characters and dots deleted, joined by single spaces: a whitespace run between two words becomes one space, never none. |
| WindowsSafe.CleanNameWords | episode_extractor.py:22-24 | `re.sub(r'\s+', ' ', x).strip().rstrip(' ')` of x, the input without invalid characters and dots, is `' '.join(x.split())`. |
| WindowsSafe.SafeNameWords | episode_extractor.py:21-27 | make_windows_safe is `' '.join(x.split())` of the input x without invalid characters and dots, plus `_` exactly for a device name. |
| Strings.StripCollapseWords | episode_extractor.py:23 | For every string, `re.sub(r'\s+', ' ', s).strip()` equals `' '.join(s.split())`. |
| WindowsSafe.MakeWindowsSafeIdempotent | episode_extractor.py:21-27 | A second pass changes nothing. |
| WindowsSafe.SafeNameNotDevice | episode_extractor.py:17-26 | No output is itself a device name (`CON_` no longer matches). |
| WindowsSafe.DeviceNameSuffixed | episode_extractor.py:17-26 | CON, PRN, AUX, NUL, COM1-9 and LPT1-9, in any letter case, get exactly one `_`. |
| WindowsSafe.DotsRemovedBeforeReservedTest | episode_extractor.py:17-26 | `device.ext` matches the reserved pattern, yet comes out as `deviceext` with no `_`. |
| WindowsSafe.ReservedBasename | episode_extractor.py:17 | RESERVED_BASENAMES.match; ReservedOnClean and DotsRemovedBeforeReservedTest state what it accepts. |
| WindowsSafe.ReservedOnClean | episode_extractor.py:17 | On text without dots or line feeds, the reserved pattern matches exactly the bare device names. |
| WindowsSafe.EmptyNameStaysEmpty | episode_extractor.py:21-27 | The empty name stays empty. |
| WindowsSafe.IsEpisodeTitleLine | episode_extractor.py:29-38 | is_episode_title_line; TitleLineCharacterised states it as one condition, and the three Rejected lemmas state each exclusion. |
| WindowsSafe.TitleLineCharacterised | episode_extractor.py:29-38 | A line is a title iff it has a non-digit character, is not a date line, and has no release-note token at any position. |
| WindowsSafe.HasReleaseNote | episode_extractor.py:19 | IGNORE_NOTES.search as a left-to-right scan; HasReleaseNoteSomewhere states what it finds. |
| WindowsSafe.HasReleaseNoteSomewhere | episode_extractor.py:19-36 | The left-to-right search finds a token exactly when one starts at some position. |
| WindowsSafe.DateLineRejected | episode_extractor.py:18-35 | Every `Mon[letters] D(D) YYYY` line (optionally ending in one line feed) is a date line and no title; DateLineParts shows the scan accepts nothing else. |
| WindowsSafe.IsDateLine | episode_extractor.py:18 | DATE_LINE.match as a scan; DateLineExactly states the lines it accepts. |
| WindowsSafe.DateLineExactly | episode_extractor.py:18 | A line is a date line iff it splits into a month's first three letters (any case), more letters, whitespace, a one- or two-digit day, whitespace, a four-digit year and at most a final line feed. |
| WindowsSafe.DateLineParts | episode_extractor.py:18 | The converse direction: every line the scan accepts splits into exactly those pieces. |
| WindowsSafe.ReleaseNoteRejected | episode_extractor.py:19-37 | A line with Finale, Remux, HDTV, Blu-ray/Bluray, WEB(-DL), x264/x265, 1080p, 720p, 2160p or 4K anywhere, in any case, is no title. |
| WindowsSafe.NumberLineRejected | episode_extractor.py:30-33 | Empty and all-digit lines are no titles. |
| Extractor.ManualTitles | episode_extractor.py:215-225 | What parse_manual_episode_titles returns; ManualTitlesSafe, ManualRoundTrip and the upstream-test lemmas state its properties. |
| Extractor.ParseManualEpisodeTitles | episode_extractor.py:215-225 | The append loop returns make_windows_safe(strip(segment)) for each comma segment, in order, without the empty ones. Empty input gives `[]`. |
| Extractor.ManualTitlesSafe | episode_extractor.py:215-225 | Every parsed title is non-empty, clean, no device name and comma-free. |
| Extractor.ManualRoundTrip | episode_extractor.py:215-225 | Parsing the comma-join of safe, comma-free titles gives the titles back. |
| Extractor.ManualTitlesStripSegments | tests/test_episode_extractor.py:7-9 | Spaces around segments are stripped. |
| Extractor.ManualTitlesDropEmpty | tests/test_episode_extractor.py:11-13 | Empty and blank segments are dropped. |
| Extractor.ManualTitlesInvalidRemoved | tests/test_episode_extractor.py:15-17 | Invalid characters are deleted from each segment. |
| Extractor.ManualRoundTripFromWidget | episode_extractor.py:125-127 | The widget text (the join plus its trailing newline) parses back to the titles; an empty box parses to `[]`. |
| Extractor.ReverseInPlace | episode_extractor.py:113-114 | `list.reverse()` on an array leaves the reversed contents. |
| Extractor.OverrideEpisodeNames | episode_extractor.py:125-139 | The parsed list becomes the session's new "Episode List". |
| Extractor.ExtractTitles | episode_extractor.py:103-111 | What process_and_save collects; ExtractedTitlesSafe, ExtractTitleLines and ExtractedCharacters state its properties. |
| Extractor.ExtractEpisodeTitles | episode_extractor.py:103-111 | The loop keeps the safe form of each stripped title line when it is non-empty, in source order. |
| Extractor.ProcessAndSave | episode_extractor.py:102-122 | The stored list is the extracted titles, reversed iff the flag is 0. The returned text is their comma-join. |
| Extractor.ExtractedTitlesSafe | episode_extractor.py:104-111 | Every extracted title is safe and is the safe form of some stripped title line. |
| Extractor.ExtractTitleLines | episode_extractor.py:103-111 | Pasting safe title lines, one per line, extracts exactly them in order. |
| Extractor.ExtractedCharacters | episode_extractor.py:104-111 | No extracted title holds a character absent from the text, other than ` ` and `_`. |
| Extractor.OverrideAfterProcess | episode_extractor.py:113-127 | On comma-free text, "Use Manual Episode Names" right after "Process & Save" keeps the stored list. |
| Tvmaze.SeasonMatches | episode_extractor.py:237-240 | The season filter; SeasonMatchesExact states what it keeps. |
| Tvmaze.SeasonMatchesExact | episode_extractor.py:237-240 | The matches are exactly the episodes of the requested season, each with its multiplicity. |
| Tvmaze.SortByNumber | episode_extractor.py:241 | The stable sort by `number or 0`; SortByNumberSorted, SortByNumberPermutes and SortByNumberStable state it. |
| Tvmaze.SortByNumberSorted | episode_extractor.py:241 | The sort result is ordered by number, a missing or null number counting as 0. |
| Tvmaze.SortByNumberPermutes | episode_extractor.py:241 | The sort result is a permutation of its input. |
| Tvmaze.SortByNumberStable | episode_extractor.py:241 | Episodes with equal keys keep their order. |
| Tvmaze.SortEpisodesByNumber | episode_extractor.py:241 | The in-place sort of the array leaves the specified stable sort of its old contents. |
| Tvmaze.InsertNext | episode_extractor.py:241 | One insertion step places the next episode behind every not-larger key of the sorted prefix. |
| Tvmaze.SanitizeNames | episode_extractor.py:243-247 | The loop keeps make_windows_safe(strip(str(name))) of each episode when non-empty, in order. |
| Tvmaze.FetchEpisodeTitlesFromTvmaze | episode_extractor.py:228-248 | An empty show name fails first. A failed request fails with its reason. Otherwise the result is the season's sorted, sanitised, non-empty titles. |
| Tvmaze.SeasonTitlesSafe | episode_extractor.py:243-248 | Every looked-up title is a safe title. |
| Tvmaze.EpisodeTitle | episode_extractor.py:245 | make_windows_safe(str(name).strip()) of one episode; EpisodeTitleCharacters, NullNameTitle and AbsentNameDropped state it. |
| Tvmaze.EpisodeTitleCharacters | episode_extractor.py:245 | An episode's title holds, apart from ` ` and `_`, only characters of its name as text. |
| Tvmaze.SeasonTitlesSource | episode_extractor.py:237-248 | Every looked-up title is the title of some reply episode of the requested season and, apart from ` ` and `_`, holds only characters of that episode's name. |
| Tvmaze.NullNameTitle | episode_extractor.py:245 | A null name prints as `None` and is kept. |
| Tvmaze.AbsentNameDropped | episode_extractor.py:245-246 | An episode without a name contributes nothing. |
| Tvmaze.FetchEpisodeNamesOnline | episode_extractor.py:151-176 | The session list is replaced only when titles were found, by the titles reversed iff the flag is 0. Otherwise nothing is replaced, and the outcome is one of: skipped, lookup failure, no episodes. |

## Left out

- The GUI (tkinter_app.py, tkinter_tool_tip.py, the Tk widgets and status labels of
  `EpisodeExtractor`), main.py and the console call are not part of this model. Nor are
  `_get_show_name`, `_get_season_number`, `_set_status_error` and `_update_status_label`.
  Their results enter as parameters: the stripped show name, the parsed season as an `Option`,
  and the "flipped" flag.
- The filesystem operations (`os.rename`, `os.link`, `os.makedirs`, `os.listdir`) and
  source_directory_file_list.py are not part of this model. Neither is the pairwise loop that
  indexes the final names by the number of source files.
- The HTTP request and JSON decoding of the TVmaze lookup are a parameter (`TvmazeReply`). A
  reply is either a failure with its reason or a list of episode records. JSON values other than
  integers or null for "season"/"number" are not modelled. Neither is a non-string "name" other
  than null, nor Python's `True == 1`.
- `print` output is left out.
- "Season" and "Episode Offset" are natural numbers rendered in canonical decimal. The code
  applies `int()` to the typed text and, in `create_season_path`, inserts the raw text. So
  leading zeros, signs and surrounding spaces in that text are not modelled, and neither are
  the `int()` errors.
- `os.path.join` is a two-argument Windows join: it adds `\` unless the directory is empty or
  already ends in a separator. A later part that starts with a drive or a separator does not
  reset the path here. A directory that is a bare drive such as `X:` also gets the `\`, where
  `ntpath.join` adds none; the library roots and chosen folders of the program never take that
  form.
- Missing dictionary keys. The code reads "Show Name", "Media Type", "Episode Offset" and
  "Episode List" (final_file_names.py:13-16), and "Media Type", "Show Name", "Scene",
  "Resolution", "Source", "Video Format", "Audio Format" and "Source Directory"
  (destination_directory.py:24, 50, 55) with `[...]`, so an absent key raises `KeyError`. The
  application sets "Episode List" only from the extractor window and "Source Directory" only
  when a folder is chosen (tkinter_app.py:108-111, 211-216), so Preview before entering names,
  or Rename before choosing a folder, raises `KeyError`. `MediaDictionary` makes every key but
  "Dual Audio" a field that is always present, so this error path is not modelled.
- The base path of `DestinationDirectory` is a string whose truthiness is non-emptiness. The
  application passes `True`.
- The regular expressions are ASCII only for letters, digits and case folding. Unicode digits
  for `\d`, and letters that fold to ASCII under `re.I` (such as the Kelvin sign for `K`), are
  not modelled. `\s` and `splitlines` use Python's full sets of whitespace and line-break
  characters.
- FileNames.AddZerosToProperName: its own contract states only the movie case. The
  numbering rule is stated by FileNames.NumberingSegment.
