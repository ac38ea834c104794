/**
 * The part of the operating system the two tools query, as a value.
 *
 * A file system maps the resolved names of a location (`Components`) to what
 * is there. The tools only ever look up normalized paths (the result of
 * `abspath`, or that joined with one listed name), so keying by names
 * rather than by path strings loses nothing; it only makes "//a/c" and
 * "/a/c" the same location. Every query that can fail in the real
 * system carries its failure text, so that the tools' error strings can be
 * stated exactly.
 */
module FileSystem {
  import opened Wrappers
  import opened Strings
  import opened Paths

  /** What `os.listdir` gives for a directory: names in enumeration order, or a failure. */
  datatype Listing = Names(names: seq<string>) | ListingFailed(reason: string)

  /** What `open(path, "r").read()` gives for a regular file: decoded text, or a failure. */
  datatype Text = Decoded(text: string) | ReadFailed(reason: string)

  datatype Kind =
    | RegularFile(content: Text)
    | Directory(listing: Listing)
    | OtherKind  // a device, a socket, a pipe

  /** What `os.path.getsize` gives: the size in bytes, or a failure. */
  datatype SizeRead = Bytes(n: nat) | StatFailed(reason: string)

  datatype Entry = Entry(kind: Kind, size: SizeRead)

  type Fs = map<seq<string>, Entry>

  /** The entry at an absolute path, if there is one. */
  function Lookup(fs: Fs, p: string): Option<Entry>
    requires IsAbsolute(p)
  {
    if Components(p) in fs then Some(fs[Components(p)]) else None
  }

  /** `os.path.isdir(p)`. */
  predicate IsDirectoryAt(fs: Fs, p: string)
    requires IsAbsolute(p)
  {
    Lookup(fs, p).Some? && Lookup(fs, p).value.kind.Directory?
  }

  /** `os.path.isfile(p)`: true for regular files only. */
  predicate IsRegularFileAt(fs: Fs, p: string)
    requires IsAbsolute(p)
  {
    Lookup(fs, p).Some? && Lookup(fs, p).value.kind.RegularFile?
  }

  /** The text of `str(e)` for the `FileNotFoundError` raised on a missing path. */
  function NoSuchFile(p: string): string {
    "[Errno 2] No such file or directory: '" + p + "'"
  }

  /** `os.path.getsize(p)`: a missing entry fails with `NoSuchFile`. */
  function SizeAt(fs: Fs, p: string): SizeRead
    requires IsAbsolute(p)
  {
    match Lookup(fs, p)
    case None => StatFailed(NoSuchFile(p))
    case Some(e) => e.size
  }

  /** Both tools report every failure as a string that starts with "Error: ". */
  function Error(message: string): string {
    "Error: " + message
  }

  lemma ErrorStartsWithPrefix(message: string)
    ensures StartsWith(Error(message), "Error: ")
  {
  }
}
