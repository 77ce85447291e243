/** Value types shared by the version list, the per-version actions and the new-version form. */
module Types {

  /** A value that may be absent (`null` or `undefined` in the source). */
  datatype Option<+T> = None | Some(value: T)

  /** What an awaited call gives back: a value, or an exception with its message. */
  datatype Outcome<+T> = Returned(value: T) | Threw(message: string)

  /**
   * One patch version as the version list receives it. Dates are given as
   * milliseconds since the epoch; `changelog` is `None` for SQL `null`.
   */
  datatype Patch = Patch(
    id: int,
    version: string,
    createdAt: int,
    updatedAt: Option<int>,
    changelog: Option<string>,
    published: bool,
    archived: bool)

  /** Where a new or replacement patch comes from: an uploaded `.bps` file or one generated from a modified ROM. */
  datatype PatchMode = Bps | Rom

  /** The state of patch generation from a modified ROM; `Failed` is the source's `"error"`. */
  datatype GenStatus = Idle | Generating | Ready | Failed

  /** A base ROM as the base-ROM table lists it; `crc32` already read as hexadecimal. */
  datatype BaseRomEntry = BaseRomEntry(name: string, crc32: int, sha1: string)

  /** Where patch generation from a modified ROM leaves its status, its message and the chosen patch file. */
  datatype Generation = Generation(status: GenStatus, error: string, file: Option<string>)
}
