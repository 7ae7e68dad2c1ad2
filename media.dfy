/**
 * The application's media dictionary (`media_data_dict` in tkinter_app.py), as far as the
 * naming core reads it, and the list object its "Episode List" entry holds.
 */
module Media {
  import opened Wrappers

  /**
   * The metadata the user typed. "Media Type" is free text ("TV", "Anime", "Movie" or anything
   * else). "Season" and "Episode Offset" are taken as already-parsed natural numbers.
   * "Dual Audio" is the one key the naming code reads with a default, so it may be absent;
   * every other key is always present here, so the `KeyError` of an absent one is not modelled.
   */
  datatype MediaDictionary = MediaDictionary(
    showName: string,
    mediaType: string,
    season: nat,
    episodeOffset: nat,
    dualAudio: Option<string>,
    scene: string,
    resolution: string,
    source: string,
    videoFormat: string,
    audioFormat: string,
    sourceDirectory: string)

  /**
   * The holder of the dictionary's "Episode List" entry. The list is a mutable object: the
   * episode extractor replaces it with a new one, and FinalFileNames sanitises it in place.
   */
  class MediaSession {
    var episodeList: array<string>

    constructor ()
      ensures fresh(episodeList) && episodeList.Length == 0
    {
      episodeList := new string[0];
    }
  }
}
