/**
 * `get_file_content(working_directory, file_path)`: the text of a regular
 * file inside the working directory, cut at `MaxChars` characters with a
 * marker naming the file, or an `Error: ` string saying why it cannot be read.
 */
module FileContent {
  import opened Strings
  import opened Paths
  import opened FileSystem

  /** `MAX_CHARS`: the longest text returned unchanged. */
  const MaxChars: nat := 10000

  /** `os.path.abspath(os.path.join(working_directory, file_path))`. */
  function Target(cwd: string, root: string, filePath: string): (t: string)
    requires IsAbsolute(cwd)
    ensures IsAbsolute(t)
  {
    Normalize(cwd, Join(root, filePath))
  }

  /** The note appended to a cut text; the limit in it is written out as a literal. */
  function Marker(filePath: string): string {
    "\n[...File \"" + filePath + "\" truncated at 10000 characters]"
  }

  /** The text as returned: unchanged up to `MaxChars`, otherwise its first `MaxChars` characters and the marker. */
  function Truncate(content: string, filePath: string): (r: string)
    ensures |content| <= MaxChars ==> r == content
  {
    if |content| > MaxChars then content[..MaxChars] + Marker(filePath) else content
  }

  function OutsideError(filePath: string): string {
    Error("Cannot read \"" + filePath + "\" as it is outside the permitted working directory")
  }

  function NotRegularFileError(filePath: string): string {
    Error("File not found or is not a regular file: \"" + filePath + "\"")
  }

  /** The read succeeds: the target is contained, a regular file, and its text decodes. */
  predicate Readable(cwd: string, root: string, filePath: string, fs: Fs)
    requires IsAbsolute(cwd)
  {
    var target := Target(cwd, root, filePath);
    && Contained(target, Normalize(cwd, root))
    && Lookup(fs, target).Some?
    && Lookup(fs, target).value.kind.RegularFile?
    && Lookup(fs, target).value.kind.content.Decoded?
  }

  /** The text of the file at `Target`, when it is `Readable`. */
  function TextAt(cwd: string, root: string, filePath: string, fs: Fs): string
    requires IsAbsolute(cwd)
    requires Readable(cwd, root, filePath, fs)
  {
    Lookup(fs, Target(cwd, root, filePath)).value.kind.content.text
  }

  /** What `get_file_content` returns. */
  function GetFileContent(cwd: string, root: string, filePath: string, fs: Fs): string
    requires IsAbsolute(cwd)
  {
    var target := Target(cwd, root, filePath);
    if !Contained(target, Normalize(cwd, root)) then OutsideError(filePath)
    else if !IsRegularFileAt(fs, target) then NotRegularFileError(filePath)
    else match Lookup(fs, target).value.kind.content
      case ReadFailed(reason) => Error(reason)
      case Decoded(text) => Truncate(text, filePath)
  }

  // ---------------------------------------------------------------------
  // Truncation

  /**
   * Whatever the text, the result keeps its first `MaxChars` characters (all
   * of it when shorter) and is never longer than `MaxChars` plus the marker.
   */
  lemma {:induction false} TruncateBounds(content: string, filePath: string)
    ensures var r, keep := Truncate(content, filePath), if |content| < MaxChars then |content| else MaxChars;
      && |r| <= MaxChars + |Marker(filePath)|
      && keep <= |r|
      && r[..keep] == content[..keep]
  {
    if |content| > MaxChars {
      assert (content[..MaxChars] + Marker(filePath))[..MaxChars] == content[..MaxChars];
    }
  }

  /** A text over the limit is cut to exactly `MaxChars` characters, followed by the marker. */
  lemma {:induction false} LongTextTruncated(content: string, filePath: string)
    requires |content| > MaxChars
    ensures var r := Truncate(content, filePath);
      && |r| == MaxChars + |Marker(filePath)|
      && r[..MaxChars] == content[..MaxChars]
      && r[MaxChars..] == Marker(filePath)
  {
    var r := Truncate(content, filePath);
    assert r == content[..MaxChars] + Marker(filePath);
  }

  /** The result is longer than `MaxChars` exactly when the text was. */
  lemma {:induction false} TruncatedExactlyWhenLong(content: string, filePath: string)
    ensures |Truncate(content, filePath)| > MaxChars <==> |content| > MaxChars
  {
  }

  // ---------------------------------------------------------------------
  // Outcomes

  /**
   * A target outside the root gets the containment error whatever the file
   * system holds there, a readable file included: containment is checked first.
   */
  lemma {:induction false} EscapeRejected(cwd: string, root: string, filePath: string, fs: Fs)
    requires IsAbsolute(cwd)
    requires !Contained(Target(cwd, root, filePath), Normalize(cwd, root))
    ensures GetFileContent(cwd, root, filePath, fs) == OutsideError(filePath)
    ensures !Readable(cwd, root, filePath, fs)
  {
  }

  /** A contained target that is missing, a directory or another kind of entry gets the not-a-file error. */
  lemma {:induction false} NotRegularFile(cwd: string, root: string, filePath: string, fs: Fs)
    requires IsAbsolute(cwd)
    requires Contained(Target(cwd, root, filePath), Normalize(cwd, root))
    requires var entry := Lookup(fs, Target(cwd, root, filePath));
      entry.None? || entry.value.kind.Directory? || entry.value.kind == OtherKind
    ensures GetFileContent(cwd, root, filePath, fs) == NotRegularFileError(filePath)
  {
  }

  /** A regular file whose text cannot be read or decoded becomes the outer `Error: ` string. */
  lemma {:induction false} ReadFailureIsError(cwd: string, root: string, filePath: string, fs: Fs, reason: string)
    requires IsAbsolute(cwd)
    requires Contained(Target(cwd, root, filePath), Normalize(cwd, root))
    requires var entry := Lookup(fs, Target(cwd, root, filePath));
      entry.Some? && entry.value.kind == RegularFile(ReadFailed(reason))
    ensures GetFileContent(cwd, root, filePath, fs) == Error(reason)
  {
  }

  /** A readable text of at most `MaxChars` characters, exactly `MaxChars` included, is returned unchanged. */
  lemma {:induction false} ShortFileUnchanged(cwd: string, root: string, filePath: string, fs: Fs)
    requires IsAbsolute(cwd)
    requires Readable(cwd, root, filePath, fs)
    requires |TextAt(cwd, root, filePath, fs)| <= MaxChars
    ensures GetFileContent(cwd, root, filePath, fs) == TextAt(cwd, root, filePath, fs)
  {
  }

  /** A readable text over `MaxChars` characters comes back cut, with the marker naming the argument as given. */
  lemma {:induction false} LongFileTruncated(cwd: string, root: string, filePath: string, fs: Fs)
    requires IsAbsolute(cwd)
    requires Readable(cwd, root, filePath, fs)
    requires |TextAt(cwd, root, filePath, fs)| > MaxChars
    ensures GetFileContent(cwd, root, filePath, fs)
         == TextAt(cwd, root, filePath, fs)[..MaxChars] + Marker(filePath)
  {
  }

  /**
   * The tool never raises: when the read does not succeed the result starts
   * with `Error: `, and when it does the result is the text under `Truncate`.
   */
  lemma {:induction false} ErrorUnlessReadable(cwd: string, root: string, filePath: string, fs: Fs)
    requires IsAbsolute(cwd)
    ensures !Readable(cwd, root, filePath, fs) ==> StartsWith(GetFileContent(cwd, root, filePath, fs), "Error: ")
    ensures Readable(cwd, root, filePath, fs) ==>
      GetFileContent(cwd, root, filePath, fs) == Truncate(TextAt(cwd, root, filePath, fs), filePath)
  {
    var target := Target(cwd, root, filePath);
    if !Contained(target, Normalize(cwd, root)) {
      ErrorStartsWithPrefix("Cannot read \"" + filePath + "\" as it is outside the permitted working directory");
    } else if !IsRegularFileAt(fs, target) {
      ErrorStartsWithPrefix("File not found or is not a regular file: \"" + filePath + "\"");
    } else if !Readable(cwd, root, filePath, fs) {
      ErrorStartsWithPrefix(Lookup(fs, target).value.kind.content.reason);
    }
  }
}
