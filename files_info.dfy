/**
 * `get_files_info(working_directory, directory=None)`: describe the immediate
 * entries of a directory that lies inside the working directory, one line
 * per entry, or say in an `Error: ` string why it cannot.
 */
module FilesInfo {
  import opened Wrappers
  import opened Strings
  import opened Paths
  import opened FileSystem

  /** `directory or "."`: an omitted or empty argument names the root itself. */
  function DirectoryArg(directory: Option<string>): (d: string)
    ensures d != ""
    ensures d == "." <==> directory == None || directory == Some("") || directory == Some(".")
    ensures directory.Some? && directory.value != "" ==> d == directory.value
  {
    match directory
    case None => "."
    case Some(d) => if d == "" then "." else d
  }

  /** How `f"{directory}"` renders the argument: an omitted one prints as "None". */
  function Show(directory: Option<string>): string {
    match directory
    case None => "None"
    case Some(d) => d
  }

  /** `os.path.abspath(os.path.join(working_directory, directory or "."))`. */
  function Target(cwd: string, root: string, directory: Option<string>): (t: string)
    requires IsAbsolute(cwd)
    ensures IsAbsolute(t)
  {
    Normalize(cwd, Join(root, DirectoryArg(directory)))
  }

  function OutsideError(directory: Option<string>): string {
    Error("Cannot list \"" + Show(directory) + "\" as it is outside the permitted working directory")
  }

  function NotDirectoryError(directory: Option<string>): string {
    Error("\"" + Show(directory) + "\" is not a directory")
  }

  /** `str(b)` for a Python bool. */
  function PyBool(b: bool): string {
    if b then "True" else "False"
  }

  /**
   * The text of one listing line: the entry's size and whether it is a
   * directory, or, when reading the size failed, that failure inline.
   */
  function FormatLine(name: string, size: SizeRead, isDir: bool): string {
    LineHead(name) + match size
      case Bytes(n) => "file_size=" + NatToString(n) + " bytes, is_dir=" + PyBool(isDir)
      case StatFailed(reason) => "Error reading file size: " + reason
  }

  /** Each line starts by naming its entry. */
  function LineHead(name: string): string {
    "- " + name + ": "
  }

  /** The line for entry `name` of directory `dir`, from what the file system says of it. */
  function EntryLine(fs: Fs, dir: string, name: string): string
    requires IsAbsolute(dir)
  {
    var path := Join(dir, name);
    FormatLine(name, SizeAt(fs, path), IsDirectoryAt(fs, path))
  }

  /** Every line names its entry first. */
  lemma {:induction false} FormatLineHead(name: string, size: SizeRead, isDir: bool)
    ensures StartsWith(FormatLine(name, size, isDir), LineHead(name))
    ensures FormatLine(name, size, isDir)[0] == '-'
  {
  }

  /** The lines for a sequence of entries, in the same order. */
  function EntryLines(fs: Fs, dir: string, names: seq<string>): (lines: seq<string>)
    requires IsAbsolute(dir)
    ensures |lines| == |names|
    ensures forall i {:trigger lines[i]} :: 0 <= i < |names| ==> lines[i] == EntryLine(fs, dir, names[i])
  {
    seq(|names|, i requires 0 <= i < |names| => EntryLine(fs, dir, names[i]))
  }

  /** The names `os.listdir` gives for `dir`, or none when it is not a listable directory. */
  function ListedNames(fs: Fs, dir: string): seq<string>
    requires IsAbsolute(dir)
  {
    match Lookup(fs, dir)
    case Some(Entry(Directory(Names(names)), _)) => names
    case _ => []
  }

  /** The listing succeeds: the target is contained, a directory, and can be enumerated. */
  predicate Listable(cwd: string, root: string, directory: Option<string>, fs: Fs)
    requires IsAbsolute(cwd)
  {
    var target := Target(cwd, root, directory);
    && Contained(target, Normalize(cwd, root))
    && Lookup(fs, target).Some?
    && Lookup(fs, target).value.kind.Directory?
    && Lookup(fs, target).value.kind.listing.Names?
  }

  /** What `get_files_info` returns. */
  function FilesInfo(cwd: string, root: string, directory: Option<string>, fs: Fs): string
    requires IsAbsolute(cwd)
  {
    var target := Target(cwd, root, directory);
    if !Contained(target, Normalize(cwd, root)) then OutsideError(directory)
    else if !IsDirectoryAt(fs, target) then NotDirectoryError(directory)
    else match Lookup(fs, target).value.kind.listing
      case ListingFailed(reason) => Error(reason)
      case Names(names) => JoinWith(EntryLines(fs, target, names), '\n')
  }

  /** The loop of `get_files_info`: one line per enumerated entry, in order. */
  method ListEntries(fs: Fs, dir: string, names: seq<string>) returns (entries: seq<string>)
    requires IsAbsolute(dir)
    ensures entries == EntryLines(fs, dir, names)
  {
    entries := [];
    for i := 0 to |names|
      invariant |entries| == i
      invariant forall k :: 0 <= k < i ==> entries[k] == EntryLine(fs, dir, names[k])
    {
      entries := entries + [EntryLine(fs, dir, names[i])];
    }
    var lines := EntryLines(fs, dir, names);
    assert forall k :: 0 <= k < |names| ==> entries[k] == lines[k];
  }

  /**
   * `get_files_info`: the guard checks, then the entry lines joined with
   * newlines.
   */
  method GetFilesInfo(cwd: string, root: string, directory: Option<string>, fs: Fs) returns (r: string)
    requires IsAbsolute(cwd)
    ensures r == FilesInfo(cwd, root, directory, fs)
  {
    var targetDir := Target(cwd, root, directory);
    var baseDir := Normalize(cwd, root);
    if !StartsWith(targetDir, baseDir) {
      return OutsideError(directory);
    }
    if !IsDirectoryAt(fs, targetDir) {
      return NotDirectoryError(directory);
    }
    match Lookup(fs, targetDir).value.kind.listing {
      case ListingFailed(reason) =>
        r := Error(reason);
      case Names(names) =>
        var entries := ListEntries(fs, targetDir, names);
        r := JoinWith(entries, '\n');
    }
  }

  // ---------------------------------------------------------------------
  // Properties

  /** An omitted or empty `directory` names the root, which always passes the guard. */
  lemma {:induction false} DefaultDirectoryIsRoot(cwd: string, root: string, directory: Option<string>)
    requires IsAbsolute(cwd)
    requires directory == None || directory == Some("")
    ensures Target(cwd, root, directory) == Normalize(cwd, root)
    ensures Contained(Target(cwd, root, directory), Normalize(cwd, root))
  {
    RootContainsItself(cwd, root);
  }

  /**
   * A target outside the root gets the containment error whatever the file
   * system holds there, an existing directory included: containment is
   * checked first.
   */
  lemma {:induction false} EscapeRejected(cwd: string, root: string, directory: Option<string>, fs: Fs)
    requires IsAbsolute(cwd)
    requires !Contained(Target(cwd, root, directory), Normalize(cwd, root))
    ensures FilesInfo(cwd, root, directory, fs) == OutsideError(directory)
  {
  }

  /** A contained target that is not a directory gets the not-a-directory error. */
  lemma {:induction false} NotADirectory(cwd: string, root: string, directory: Option<string>, fs: Fs)
    requires IsAbsolute(cwd)
    requires Contained(Target(cwd, root, directory), Normalize(cwd, root))
    requires !IsDirectoryAt(fs, Target(cwd, root, directory))
    ensures FilesInfo(cwd, root, directory, fs) == NotDirectoryError(directory)
  {
  }

  /** A directory that cannot be enumerated becomes the outer `Error: ` string. */
  lemma {:induction false} ListingFailureIsError(cwd: string, root: string, directory: Option<string>, fs: Fs, reason: string)
    requires IsAbsolute(cwd)
    requires Contained(Target(cwd, root, directory), Normalize(cwd, root))
    requires var entry := Lookup(fs, Target(cwd, root, directory));
      entry.Some? && entry.value.kind == Directory(ListingFailed(reason))
    ensures FilesInfo(cwd, root, directory, fs) == Error(reason)
  {
  }

  /**
   * A successful listing is one line per enumerated entry, in enumeration
   * order, joined with newlines; line `i` is about entry `i` and nothing else.
   */
  lemma {:induction false} OneLinePerEntry(cwd: string, root: string, directory: Option<string>, fs: Fs)
    requires IsAbsolute(cwd)
    requires Listable(cwd, root, directory, fs)
    ensures var target := Target(cwd, root, directory);
      var names := ListedNames(fs, target);
      var lines := EntryLines(fs, target, names);
      && FilesInfo(cwd, root, directory, fs) == JoinWith(lines, '\n')
      && |lines| == |names|
      && forall i :: 0 <= i < |names| ==> StartsWith(lines[i], LineHead(names[i]))
  {
    var target := Target(cwd, root, directory);
    var names := ListedNames(fs, target);
    forall i | 0 <= i < |names| ensures StartsWith(EntryLines(fs, target, names)[i], LineHead(names[i])) {
      var path := Join(target, names[i]);
      FormatLineHead(names[i], SizeAt(fs, path), IsDirectoryAt(fs, path));
    }
  }

  /** An empty directory lists as the empty string, not as an error. */
  lemma {:induction false} EmptyDirectoryIsEmpty(cwd: string, root: string, directory: Option<string>, fs: Fs)
    requires IsAbsolute(cwd)
    requires Listable(cwd, root, directory, fs)
    requires ListedNames(fs, Target(cwd, root, directory)) == []
    ensures FilesInfo(cwd, root, directory, fs) == ""
  {
  }

  /**
   * A failed size read for entry `j` is reported on line `j` and the listing
   * goes on: every other entry still has its own line.
   */
  lemma {:induction false} SizeFailureStaysInline(cwd: string, root: string, directory: Option<string>, fs: Fs, j: nat, reason: string)
    requires IsAbsolute(cwd)
    requires Listable(cwd, root, directory, fs)
    requires j < |ListedNames(fs, Target(cwd, root, directory))|
    requires var target := Target(cwd, root, directory);
      SizeAt(fs, Join(target, ListedNames(fs, target)[j])) == StatFailed(reason)
    ensures var target := Target(cwd, root, directory);
      var names := ListedNames(fs, target);
      var lines := EntryLines(fs, target, names);
      && FilesInfo(cwd, root, directory, fs) == JoinWith(lines, '\n')
      && |lines| == |names|
      && lines[j] == LineHead(names[j]) + "Error reading file size: " + reason
      && forall i :: 0 <= i < |names| && SizeAt(fs, Join(target, names[i])).Bytes? ==>
           lines[i] == LineHead(names[i]) + "file_size=" + NatToString(SizeAt(fs, Join(target, names[i])).n)
                       + " bytes, is_dir=" + PyBool(IsDirectoryAt(fs, Join(target, names[i])))
  {
    var target := Target(cwd, root, directory);
    var names := ListedNames(fs, target);
    var lines := EntryLines(fs, target, names);
    assert lines[j] == EntryLine(fs, target, names[j]);
    Associative(LineHead(names[j]), "Error reading file size: ", reason);
    forall i | 0 <= i < |names| && SizeAt(fs, Join(target, names[i])).Bytes?
      ensures lines[i] == LineHead(names[i]) + "file_size=" + NatToString(SizeAt(fs, Join(target, names[i])).n)
                          + " bytes, is_dir=" + PyBool(IsDirectoryAt(fs, Join(target, names[i])))
    {
      var path := Join(target, names[i]);
      var digits, flag := NatToString(SizeAt(fs, path).n), PyBool(IsDirectoryAt(fs, path));
      Associative(LineHead(names[i]), "file_size=" + digits + " bytes, is_dir=", flag);
      Associative(LineHead(names[i]), "file_size=" + digits, " bytes, is_dir=");
      Associative(LineHead(names[i]), "file_size=", digits);
    }
  }

  /** An entry name joined to a directory denotes an immediate child of it. */
  lemma {:induction false} ChildIsImmediate(dir: string, name: string)
    requires IsAbsolute(dir) && IsSegment(name)
    ensures Components(Join(dir, name)) == Components(dir) + [name]
  {
    JoinComponents(dir, name);
    SplitWithoutSeparator(name, Sep);
    assert Resolve(Components(dir), [name]) == Resolve(Components(dir) + [name], []);
  }

  lemma {:induction false} EntryLinesAgree(fs1: Fs, fs2: Fs, dir: string, names: seq<string>)
    requires IsAbsolute(dir)
    requires forall i :: 0 <= i < |names| ==> Lookup(fs1, Join(dir, names[i])) == Lookup(fs2, Join(dir, names[i]))
    ensures EntryLines(fs1, dir, names) == EntryLines(fs2, dir, names)
  {
    assert forall i :: 0 <= i < |names| ==> EntryLines(fs1, dir, names)[i] == EntryLines(fs2, dir, names)[i];
  }

  /**
   * The listing does not recurse: it depends only on the target's own entry
   * and on the entries of its enumerated names (immediate children, by
   * `ChildIsImmediate`). Two file systems that agree there list the same.
   */
  lemma {:induction false} ListingReadsOnlyChildren(cwd: string, root: string, directory: Option<string>, fs1: Fs, fs2: Fs)
    requires IsAbsolute(cwd)
    requires var target := Target(cwd, root, directory);
      && Lookup(fs1, target) == Lookup(fs2, target)
      && forall i :: 0 <= i < |ListedNames(fs1, target)| ==>
           Lookup(fs1, Join(target, ListedNames(fs1, target)[i])) == Lookup(fs2, Join(target, ListedNames(fs1, target)[i]))
    ensures FilesInfo(cwd, root, directory, fs1) == FilesInfo(cwd, root, directory, fs2)
  {
    var target := Target(cwd, root, directory);
    EntryLinesAgree(fs1, fs2, target, ListedNames(fs1, target));
  }

  /** Joined listing lines never read as an error: the first one starts with "-". */
  lemma {:induction false} JoinedLinesAreNotErrors(lines: seq<string>)
    requires lines != [] ==> |lines[0]| > 0 && lines[0][0] == '-'
    ensures !StartsWith(JoinWith(lines, '\n'), "Error: ")
  {
    if lines != [] {
      assert JoinWith(lines, '\n')[0] == '-';
    }
  }

  /**
   * The tool never raises, and its answer is unambiguous: a result starts
   * with `Error: ` exactly when the listing did not succeed, since every
   * listing line starts with "- ".
   */
  lemma {:induction false} ErrorExactlyOnFailure(cwd: string, root: string, directory: Option<string>, fs: Fs)
    requires IsAbsolute(cwd)
    ensures StartsWith(FilesInfo(cwd, root, directory, fs), "Error: ") <==> !Listable(cwd, root, directory, fs)
  {
    var target := Target(cwd, root, directory);
    if Listable(cwd, root, directory, fs) {
      var names := ListedNames(fs, target);
      var lines := EntryLines(fs, target, names);
      assert FilesInfo(cwd, root, directory, fs) == JoinWith(lines, '\n');
      if lines != [] {
        var path := Join(target, names[0]);
        FormatLineHead(names[0], SizeAt(fs, path), IsDirectoryAt(fs, path));
      }
      JoinedLinesAreNotErrors(lines);
    } else if !Contained(target, Normalize(cwd, root)) {
      ErrorStartsWithPrefix("Cannot list \"" + Show(directory) + "\" as it is outside the permitted working directory");
    } else if !IsDirectoryAt(fs, target) {
      ErrorStartsWithPrefix("\"" + Show(directory) + "\" is not a directory");
    } else {
      ErrorStartsWithPrefix(Lookup(fs, target).value.kind.listing.reason);
    }
  }

  /** No line of a listing spans two lines when its name and failure text hold no newline. */
  lemma {:induction false} FormatLineSingle(name: string, size: SizeRead, isDir: bool)
    requires '\n' !in name
    requires size.StatFailed? ==> '\n' !in size.reason
    ensures '\n' !in FormatLine(name, size, isDir)
  {
    var head := LineHead(name);
    assert '\n' !in head;
    match size {
      case Bytes(n) =>
        var digits := NatToString(n);
        DigitsHaveNoNewline(digits);
        var flag := PyBool(isDir);
        assert '\n' !in flag;
        NoNewlineConcat("file_size=", digits);
        NoNewlineConcat("file_size=" + digits, " bytes, is_dir=");
        NoNewlineConcat("file_size=" + digits + " bytes, is_dir=", flag);
        NoNewlineConcat(head, "file_size=" + digits + " bytes, is_dir=" + flag);
      case StatFailed(reason) =>
        NoNewlineConcat("Error reading file size: ", reason);
        NoNewlineConcat(head, "Error reading file size: " + reason);
    }
  }

  lemma DigitsHaveNoNewline(digits: string)
    requires forall k :: 0 <= k < |digits| ==> IsDigit(digits[k])
    ensures '\n' !in digits
  {
  }

  lemma NoNewlineConcat(a: string, b: string)
    requires '\n' !in a && '\n' !in b
    ensures '\n' !in a + b
  {
  }

  /**
   * When no name and no failure text holds a newline, splitting a non-empty
   * listing at newlines gives back exactly its lines, one per entry.
   */
  lemma {:induction false} ListingSplitsIntoEntries(cwd: string, root: string, directory: Option<string>, fs: Fs)
    requires IsAbsolute(cwd)
    requires Listable(cwd, root, directory, fs)
    requires var target := Target(cwd, root, directory);
      var names := ListedNames(fs, target);
      && names != []
      && forall i :: 0 <= i < |names| ==>
           && '\n' !in names[i]
           && (SizeAt(fs, Join(target, names[i])).StatFailed? ==> '\n' !in SizeAt(fs, Join(target, names[i])).reason)
    ensures var target := Target(cwd, root, directory);
      Split(FilesInfo(cwd, root, directory, fs), '\n') == EntryLines(fs, target, ListedNames(fs, target))
  {
    var target := Target(cwd, root, directory);
    var names := ListedNames(fs, target);
    var lines := EntryLines(fs, target, names);
    forall i | 0 <= i < |lines| ensures '\n' !in lines[i] {
      var path := Join(target, names[i]);
      FormatLineSingle(names[i], SizeAt(fs, path), IsDirectoryAt(fs, path));
    }
    SplitJoin(lines, '\n');
  }
}
