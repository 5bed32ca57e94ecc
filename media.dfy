/** What the validation passes of main.js ask the filesystem about a track's
    path: `fs.existsSync(path)` and `fs.accessSync(path, fs.constants.R_OK)`. */
module Media {

  /** The state of one path: missing, present without read permission, or readable. */
  datatype Access = Missing | Unreadable | Readable

  /** The audio files on disk; a path not in the map does not exist. */
  type Media = map<string, Access>

  function AccessOf(m: Media, path: string): Access {
    if path in m then m[path] else Missing
  }

  /** `fs.existsSync(path)`. */
  predicate Exists(m: Media, path: string) {
    AccessOf(m, path) != Missing
  }

  /** `fs.accessSync(path, fs.constants.R_OK)` returns without throwing. */
  predicate CanRead(m: Media, path: string) {
    AccessOf(m, path) == Readable
  }

  /** The check of the get-music-library and load-music-library handlers. */
  function StrictCheck(m: Media): string -> bool {
    path => CanRead(m, path)
  }

  /** The check of the load-library handler, the startup block and loadMusicLibrary. */
  function LenientCheck(m: Media): string -> bool {
    path => Exists(m, path)
  }
}
