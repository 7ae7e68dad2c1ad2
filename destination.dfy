/**
 * destination_directory.py: the directory the renamed or linked files go to.
 *
 * In "Rename" mode that is the source directory itself. In "Hardlink" and "Preview" mode it is
 * base path \ media folder \ season folder, where the base path depends on the media type, the
 * media folder lists the show name and its release properties, and the season folder is
 * "Season NN" (empty for a movie).
 */
module Destination {
  import opened Wrappers
  import opened Strings
  import opened Media

  /**
   * create_season_path: empty for a movie, otherwise "Season " and the season number, with a
   * leading zero below 10.
   */
  function CreateSeasonPath(media: MediaDictionary): (r: string)
    ensures r == "" <==> media.mediaType == "Movie"
  {
    if media.mediaType == "Movie" then ""
    else if media.season < 10 then "Season 0" + DecimalString(media.season)
    else "Season " + DecimalString(media.season)
  }

  /**
   * The season folder of anything but a movie is "Season " followed by the season number
   * zero-padded to two digits, and the number reads back from the folder name.
   */
  lemma SeasonFolder(media: MediaDictionary)
    requires media.mediaType != "Movie"
    ensures var r := CreateSeasonPath(media);
      && |r| >= 9
      && r == "Season " + ZeroPad(DecimalString(media.season), 2)
      && ParseDecimal(r[7..]) == media.season
  {
    var d := DecimalString(media.season);
    DigitCount(media.season);
    ZeroPadDecimal(media.season, 2);
    assert Zeros(1) == "0";
    var r := CreateSeasonPath(media);
    assert r[7..] == ZeroPad(d, 2);
  }

  /** Two series items with different seasons get different season folders. */
  lemma SeasonFoldersDiffer(a: MediaDictionary, b: MediaDictionary)
    requires a.mediaType != "Movie" && b.mediaType != "Movie" && a.season != b.season
    ensures CreateSeasonPath(a) != CreateSeasonPath(b)
  {
    SeasonFolder(a);
    SeasonFolder(b);
  }

  /** The media types the code knows a library folder for. */
  predicate KnownMediaType(mediaType: string) {
    mediaType == "TV" || mediaType == "Anime" || mediaType == "Movie"
  }

  /**
   * create_new_base_path: the library folder of a known media type. For any other type the
   * local variable is never bound and the return raises, which is None here.
   */
  function CreateNewBasePath(mediaType: string): (r: Option<string>)
    ensures r.Some? <==> KnownMediaType(mediaType)
    ensures r.Some? ==> |r.value| > 3 && r.value[..3] == "X:\\" && !IsSeparator(r.value[|r.value| - 1])
  {
    if mediaType == "TV" then Some("X:\\TV Shows")
    else if mediaType == "Anime" then Some("X:\\Anime\\Shows")
    else if mediaType == "Movie" then Some("X:\\Movies")
    else None
  }

  /** The three media types have three different library folders. */
  lemma BasePathsDistinct(a: string, b: string)
    requires KnownMediaType(a) && KnownMediaType(b) && a != b
    ensures CreateNewBasePath(a) != CreateNewBasePath(b)
  {
    assert "X:\\TV Shows" != "X:\\Movies" by {
      assert |"X:\\TV Shows"| != |"X:\\Movies"|;
    }
    assert "X:\\TV Shows" != "X:\\Anime\\Shows" by {
      assert |"X:\\TV Shows"| != |"X:\\Anime\\Shows"|;
    }
    assert "X:\\Anime\\Shows" != "X:\\Movies" by {
      assert |"X:\\Anime\\Shows"| != |"X:\\Movies"|;
    }
  }

  /** create_media_path: "Show [Scene][Resolution][Source][Video Format][Audio Format]". */
  function CreateMediaPath(media: MediaDictionary): (r: string)
    ensures |r| > 0 && r[|r| - 1] == ']'
  {
    media.showName + " [" + media.scene + "][" + media.resolution + "][" + media.source + "]["
    + media.videoFormat + "][" + media.audioFormat + "]"
  }

  /** None of the dictionary fields that make up the media folder holds a '['. */
  predicate FieldsWithoutBracket(media: MediaDictionary) {
    && '[' !in media.showName && '[' !in media.scene && '[' !in media.resolution
    && '[' !in media.source && '[' !in media.videoFormat && '[' !in media.audioFormat
  }

  /**
   * When no field holds a '[', splitting the media folder name at '[' gives the show name and
   * then each of the five properties in order, each closed by its ']'.
   */
  lemma MediaPathFields(media: MediaDictionary)
    requires FieldsWithoutBracket(media)
    ensures SplitOn(CreateMediaPath(media), '[')
      == [media.showName + " ", media.scene + "]", media.resolution + "]", media.source + "]",
          media.videoFormat + "]", media.audioFormat + "]"]
  {
    var parts := [media.showName + " ", media.scene + "]", media.resolution + "]", media.source + "]",
                  media.videoFormat + "]", media.audioFormat + "]"];
    assert forall i :: 0 <= i < |parts| ==> '[' !in parts[i];
    var j5 := JoinWith(parts[5..], '[');
    var j4 := JoinWith(parts[4..], '[');
    var j3 := JoinWith(parts[3..], '[');
    var j2 := JoinWith(parts[2..], '[');
    var j1 := JoinWith(parts[1..], '[');
    var j0 := JoinWith(parts, '[');
    assert j5 == parts[5];
    assert j4 == parts[4] + "[" + j5 by { assert parts[4..][1..] == parts[5..]; }
    assert j3 == parts[3] + "[" + j4 by { assert parts[3..][1..] == parts[4..]; }
    assert j2 == parts[2] + "[" + j3 by { assert parts[2..][1..] == parts[3..]; }
    assert j1 == parts[1] + "[" + j2 by { assert parts[1..][1..] == parts[2..]; }
    assert j0 == parts[0] + "[" + j1;
    assert CreateMediaPath(media) == j0;
    JoinThenSplit(parts, '[');
  }

  /** The modes the code builds a destination for. */
  predicate KnownMode(mode: string) {
    mode == "Rename" || mode == "Hardlink" || mode == "Preview"
  }

  /**
   * create_destination_directory: the source directory when renaming, the joined library path
   * when hard-linking or previewing, and None (the implicit return) for any other mode.
   */
  function CreateDestinationDirectory(mode: string, media: MediaDictionary, basePath: string,
                                      mediaPath: string, seasonPath: string): (r: Option<string>)
    ensures r.Some? <==> KnownMode(mode)
    ensures mode == "Rename" ==> r == Some(media.sourceDirectory)
  {
    if mode == "Rename" then Some(media.sourceDirectory)
    else if mode == "Hardlink" then Some(JoinPath(JoinPath(basePath, mediaPath), seasonPath))
    else if mode == "Preview" then Some(JoinPath(JoinPath(basePath, mediaPath), seasonPath))
    else None
  }

  /** The object destination_directory.py builds, once its constructor has returned. */
  datatype DestinationDirectory = DestinationDirectory(
    destinationDirectory: Option<string>,
    basePath: string,
    mediaPath: string,
    seasonPath: string,
    mediaDictionary: MediaDictionary,
    mediaType: string,
    mode: string)

  /** Why construction fails: a non-empty base path with a media type create_new_base_path does not know. */
  datatype DestinationError = UnknownMediaType(mediaType: string)

  /**
   * DestinationDirectory.__init__. A non-empty base path is replaced by the media type's library
   * folder, an empty one is kept; the media and season folders are then computed and joined.
   * Replacing the base path fails for an unknown media type, whatever the mode.
   */
  function NewDestinationDirectory(basePath: string, media: MediaDictionary, mode: string)
    : (r: Result<DestinationDirectory, DestinationError>)
    ensures r.Failure? <==> basePath != "" && !KnownMediaType(media.mediaType)
    ensures r.Failure? ==> r.error == UnknownMediaType(media.mediaType)
    ensures r.Success? ==>
      && r.value.mediaDictionary == media && r.value.mediaType == media.mediaType && r.value.mode == mode
      && (basePath == "" ==> r.value.basePath == "")
      && (basePath != "" ==> Some(r.value.basePath) == CreateNewBasePath(media.mediaType))
      && r.value.mediaPath == CreateMediaPath(media)
      && r.value.seasonPath == CreateSeasonPath(media)
      && r.value.destinationDirectory
         == CreateDestinationDirectory(mode, media, r.value.basePath, r.value.mediaPath, r.value.seasonPath)
  {
    var base := if basePath != "" then CreateNewBasePath(media.mediaType) else Some(basePath);
    if base.None? then Failure(UnknownMediaType(media.mediaType))
    else
      var mediaPath := CreateMediaPath(media);
      var seasonPath := CreateSeasonPath(media);
      var destination := CreateDestinationDirectory(mode, media, base.value, mediaPath, seasonPath);
      Success(DestinationDirectory(destination, base.value, mediaPath, seasonPath, media, media.mediaType, mode))
  }

  /** Renaming never moves the files: the destination is the source directory, whatever the base path. */
  lemma RenameKeepsSourceDirectory(basePath: string, media: MediaDictionary)
    requires basePath == "" || KnownMediaType(media.mediaType)
    ensures var r := NewDestinationDirectory(basePath, media, "Rename");
      r.Success? && r.value.destinationDirectory == Some(media.sourceDirectory)
  {
  }

  /** Previewing shows exactly the directory hard-linking would use. */
  lemma PreviewMatchesHardlink(basePath: string, media: MediaDictionary)
    ensures var h := NewDestinationDirectory(basePath, media, "Hardlink");
      var p := NewDestinationDirectory(basePath, media, "Preview");
      && h.Success? == p.Success?
      && (h.Success? ==> h.value.destinationDirectory == p.value.destinationDirectory)
  {
  }

  /**
   * The library layout: with a non-empty base path the destination is library folder \ media
   * folder \ season folder, with an empty one it is media folder \ season folder. A movie's
   * empty season folder leaves a trailing separator.
   */
  lemma HardlinkLayout(basePath: string, media: MediaDictionary)
    requires basePath == "" || KnownMediaType(media.mediaType)
    ensures var r := NewDestinationDirectory(basePath, media, "Hardlink");
      var prefix := if basePath == "" then "" else CreateNewBasePath(media.mediaType).value + [Separator];
      && r.Success?
      && r.value.destinationDirectory
         == Some(prefix + CreateMediaPath(media) + [Separator] + CreateSeasonPath(media))
  {
    var mediaPath := CreateMediaPath(media);
    var inner := if basePath == "" then "" else CreateNewBasePath(media.mediaType).value;
    var joined := JoinPath(inner, mediaPath);
    assert joined == (if basePath == "" then "" else inner + [Separator]) + mediaPath;
    assert joined[|joined| - 1] == ']';
  }
}
