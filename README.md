# Sandboxed file tools: listing and bounded reading

This project models the two file tools that an LLM-driven coding agent calls
on its own behalf, and the path-containment guard both of them apply:

- `get_files_info(working_directory, directory=None)` describes the immediate
  entries of a directory inside the working directory, one line per entry.
- `get_file_content(working_directory, file_path)` returns the text of a
  regular file inside the working directory, cut at 10 000 characters with a
  marker naming the file.
- Each tool first computes `abspath(join(root, arg))` and `abspath(root)` and
  refuses the argument unless the first string starts with the second.

Neither tool raises. Every failure comes back as a string that starts with
`Error: `.

The modules follow that structure:

| module | file | contents |
|---|---|---|
| `Strings` | `strings.dfy` | `str.split`, `str.join`, `startswith` and `str(n)` for a natural number |
| `Paths` | `paths.dfy` | POSIX `os.path.join` and `os.path.abspath`; the containment guard and what it accepts |
| `FileSystem` | `filesystem.dfy` | the file system as a value, the queries the tools make of it, and the shared `Error` form |
| `FilesInfo` | `files_info.dfy` | `get_files_info` |
| `FileContent` | `file_content.dfy` | `get_file_content` |

How the model represents the environment:

- The process's current directory is the parameter `cwd`. It only matters when the root is relative.
- The file system is a map from the resolved names of a location to its entry.
  The entry gives the entry's kind (regular file, directory or other), its directory listing or decoded text, and its size.
  The kind is always known. The listing, the text and the size can each instead be a failure carrying its message.

`get_files_info` is imperative in the source: a loop appends one line per
enumerated name. It is modelled as the method `FilesInfo.ListEntries`, whose
loop invariant ties the lines built so far to the names processed so far.
The method `FilesInfo.GetFilesInfo` runs the guard checks and is proved equal
to the specification function `FilesInfo.FilesInfo`. That function's
properties are proved as lemmas. `get_file_content` has no loop or state, so
it is the function `FileContent.GetFileContent` plus lemmas.

`Paths.Normalize` follows CPython's `posixpath.abspath`:

- a relative path is joined to `cwd`;
- then `normpath` keeps exactly two leading slashes when the path starts with exactly two, and one otherwise;
- it then drops empty and `.` pieces;
- a `..` removes the last name and does nothing at the root.

Details of the source's behaviour that the model keeps:

- An empty `directory` means the root, just as an omitted one does.
- When the argument was omitted, an error message shows `"None"`.
- Containment is a string-prefix test. So `../calc2` passes the guard from a root named `calc` although it lies outside it (`Paths.SiblingVerdict`).
- A cut text and a complete one can still be told apart, but only by length: a successful read longer than 10 000 characters always comes from a cut (`FileContent.TruncatedExactlyWhenLong`).

## Model

| member | source | states |
|---|---|---|
| Strings.Split | functions/get_files_info.py:5-6 | `str.split` with one separator gives at least one piece; no piece holds the separator |
| Strings.JoinWith | functions/get_files_info.py:24 | `sep.join` of no parts is empty, and the join starts with its first part |
| Strings.SplitJoin | functions/get_files_info.py:24 | splitting a join at the separator gives the parts back when none holds the separator |
| Strings.SplitAtSeparator | functions/get_files_info.py:5-6 | splitting at a separator character splits each side independently |
| Strings.SplitWithoutSeparator | functions/get_files_info.py:5-6 | a string without the separator splits into itself alone |
| Strings.JoinAppend | functions/get_files_info.py:24 | joining two non-empty lists puts one separator between their joins |
| Strings.JoinPrefix | functions/get_files_info.py:24 | the join of a list is a string prefix of the join of any extension of it |
| Strings.NatToString | functions/get_files_info.py:20 | `str(n)` is non-empty, all decimal digits, and has no leading zero unless n is 0 |
| Strings.NatToStringValue | functions/get_files_info.py:20 | reading the digits of `str(n)` back gives n: the size in a line is exact |
| Strings.StartsWith | functions/get_files_info.py:8 | `s.startswith(prefix)`: `prefix` is a prefix of `s` as a sequence of characters |
| Paths.Contained | functions/get_files_info.py:8 | the guard accepts exactly when the normalized target string starts with the normalized root string |
| Paths.IsAbsolute | functions/get_files_info.py:5 | `os.path.isabs(p)`: `p` starts with the separator `/` |
| Paths.Join | functions/get_files_info.py:5 | `os.path.join` returns an absolute second argument unchanged; the result is absolute iff either argument is |
| Paths.RootLength | functions/get_files_info.py:5-6 | `normpath` keeps 0 leading separators for a relative path, and 1 or 2 for an absolute one |
| Paths.Step | functions/get_files_info.py:5-6 | one step of `normpath`'s piece loop: an empty or `.` piece is dropped, `..` removes the last name (nothing at the root), any other name is appended |
| Paths.Resolve | functions/get_files_info.py:5-6 | resolving pieces leaves only proper names: never empty, `.`, `..`, or holding a separator |
| Paths.Components | functions/get_files_info.py:5-6 | the names of the location an absolute path denotes are all proper names |
| Paths.AbsPath | functions/get_files_info.py:5-6 | `abspath` before normalization is always absolute and leaves an absolute path as it is |
| Paths.Normalize | functions/get_files_info.py:5-6 | `abspath` is absolute, keeps the one or two leading separators `normpath` retains, denotes the same location as the input, and is in normal form: those separators followed by proper names (no empty, `.` or `..` piece) joined with single separators |
| Paths.NormalForm | functions/get_files_info.py:5-6 | a path built from kept separators and proper names reads back as exactly those names |
| Paths.NormalizeIdempotent | functions/get_files_info.py:5-6 | normalizing an already normalized path changes nothing |
| Paths.ResolveAppend | functions/get_files_info.py:5-6 | resolving two runs of pieces is resolving the second from where the first ends |
| Paths.ResolveSegments | functions/get_files_info.py:5-6 | proper names are kept as they are |
| Paths.ResolveWithoutParent | functions/get_files_info.py:5-6 | without `..`, resolution only appends names |
| Paths.JoinComponents | functions/get_files_info.py:5 | joining a relative path to an absolute one resolves the relative pieces from the absolute one's location |
| Paths.JoinRegroup | functions/get_files_info.py:5 | `join(c, join(r, b)) == join(join(c, r), b)` for a non-empty relative r and a relative b |
| Paths.AbsJoin | functions/get_files_info.py:5-6 | `abspath(join(root, b))` for a relative b resolves b from `abspath(root)`, for an absolute, relative or empty root |
| Paths.RootContainsItself | functions/get_files_info.py:5-8 | `abspath(join(root, "."))` equals `abspath(root)` and so passes the guard |
| Paths.DescendantContained | functions/get_files_info.py:5-8 | a relative argument with no `..` piece always passes the guard |
| Paths.AbsoluteArgumentIgnoresRoot | functions/get_file_content.py:7-8 | an absolute argument replaces the root: its target is the argument normalized, whatever the root and the current directory |
| Paths.LastNameDecides | functions/get_files_info.py:8 | two normalized paths that differ only in their last name compare by prefix as those names do |
| Paths.SiblingVerdict | functions/get_files_info.py:5-8 | the guard accepts `../s` exactly when the root's last name is a string prefix of s |
| FilesInfo.DirectoryArg | functions/get_files_info.py:5 | `directory or "."`: never empty; an omitted or empty argument becomes `.`, any other is kept |
| FilesInfo.Show | functions/get_files_info.py:9-12 | `{directory}` in the error messages: the argument as given, or `None` when omitted |
| FilesInfo.Target | functions/get_files_info.py:5 | the listing target is an absolute path |
| FilesInfo.OutsideError | functions/get_files_info.py:9 | renders `Error: Cannot list "<directory>" as it is outside the permitted working directory` |
| FilesInfo.NotDirectoryError | functions/get_files_info.py:12 | renders `Error: "<directory>" is not a directory` |
| FilesInfo.PyBool | functions/get_files_info.py:20 | `{is_dir}` renders `True` or `False` |
| FilesInfo.LineHead | functions/get_files_info.py:20-22 | renders the `- <item>: ` head shared by both line forms |
| FilesInfo.ListedNames | functions/get_files_info.py:15 | `os.listdir(target_dir)`: the names the target directory enumerates, in enumeration order |
| FilesInfo.FormatLine | functions/get_files_info.py:20-22 | the line for one entry: `- <name>: file_size=<n> bytes, is_dir=<True/False>`, or `- <name>: Error reading file size: <reason>` |
| FilesInfo.EntryLine | functions/get_files_info.py:16-22 | the entry's line from the size and directory-ness found at `join(target, name)` |
| FilesInfo.FilesInfo | functions/get_files_info.py:3-27 | the tool's result: containment error, then not-a-directory error, then listing failure, else the joined entry lines |
| FilesInfo.FormatLineHead | functions/get_files_info.py:20-22 | every entry line, whether size or failure, starts with `- <name>: ` |
| FilesInfo.EntryLines | functions/get_files_info.py:15-22 | one line per name, in order, line i made from entry i alone |
| FilesInfo.ListEntries | functions/get_files_info.py:14-22 | the loop builds exactly the lines `EntryLines` specifies for the enumerated names |
| FilesInfo.GetFilesInfo | functions/get_files_info.py:3-27 | the tool's result equals the specification function `FilesInfo` for every argument and file system |
| FileSystem.NoSuchFile | functions/get_files_info.py:19-22 | the `str(e)` text of the `FileNotFoundError` raised for a missing path |
| FileSystem.IsDirectoryAt | functions/get_files_info.py:11-17 | `os.path.isdir`: an entry exists at the path and is a directory |
| FileSystem.IsRegularFileAt | functions/get_file_content.py:15 | `os.path.isfile`: an entry exists at the path and is a regular file |
| FileSystem.Error | functions/get_files_info.py:26-27 | renders `Error: <message>`, the form of every failure both tools return |
| FileSystem.SizeAt | functions/get_files_info.py:19 | `os.path.getsize`: the entry's recorded size or failure, or `NoSuchFile` when nothing is there |
| FilesInfo.DefaultDirectoryIsRoot | functions/get_files_info.py:5 | an omitted or empty `directory` targets the root, which always passes the guard |
| FilesInfo.EscapeRejected | functions/get_files_info.py:5-9 | an escaping target gets exactly the outside-the-working-directory error, whatever is there |
| FilesInfo.NotADirectory | functions/get_files_info.py:11-12 | a contained target that is not a directory gets exactly the not-a-directory error |
| FilesInfo.ListingFailureIsError | functions/get_files_info.py:15-27 | a directory that cannot be enumerated gives `Error: ` followed by the failure text |
| FilesInfo.OneLinePerEntry | functions/get_files_info.py:14-24 | a listing is one line per enumerated entry, in order, joined with newlines, each naming its entry |
| FilesInfo.EmptyDirectoryIsEmpty | functions/get_files_info.py:14-24 | an empty directory lists as the empty string |
| FilesInfo.SizeFailureStaysInline | functions/get_files_info.py:17-22 | a failed size read is reported inline on that entry's line; every other entry keeps its size line |
| FilesInfo.ChildIsImmediate | functions/get_files_info.py:16 | an entry path is the directory's location plus exactly one name |
| FilesInfo.EntryLinesAgree | functions/get_files_info.py:15-22 | the lines depend only on the entries at the listed children |
| FilesInfo.ListingReadsOnlyChildren | functions/get_files_info.py:11-24 | listings agree on two file systems that agree at the target and its enumerated children: no recursion |
| FilesInfo.JoinedLinesAreNotErrors | functions/get_files_info.py:24 | joined lines starting with `-` never start with `Error: ` |
| FilesInfo.ErrorExactlyOnFailure | functions/get_files_info.py:4-27 | a result starts with `Error: ` exactly when the listing does not succeed |
| FilesInfo.FormatLineSingle | functions/get_files_info.py:20-22 | a line holds no newline when its name and failure text hold none |
| FilesInfo.ListingSplitsIntoEntries | functions/get_files_info.py:24 | with newline-free names and failure texts, splitting a non-empty listing at newlines gives back its lines |
| FileContent.MaxChars | functions/get_file_content.py:3 | `MAX_CHARS`: the longest text returned unchanged, 10000 |
| FileContent.Target | functions/get_file_content.py:7 | the read target is an absolute path |
| FileContent.OutsideError | functions/get_file_content.py:12 | renders `Error: Cannot read "<file_path>" as it is outside the permitted working directory` |
| FileContent.NotRegularFileError | functions/get_file_content.py:16 | renders `Error: File not found or is not a regular file: "<file_path>"` |
| FileContent.Marker | functions/get_file_content.py:22 | renders `\n[...File "<file_path>" truncated at 10000 characters]`, the limit written as a literal |
| FileContent.TextAt | functions/get_file_content.py:18-19 | `f.read()`: the decoded text of the regular file at the target |
| FileContent.GetFileContent | functions/get_file_content.py:5-27 | the tool's result: containment error, then not-a-regular-file error, then read failure, else the text under `Truncate` |
| FileContent.Truncate | functions/get_file_content.py:21-24 | a text of at most `MAX_CHARS` characters is returned unchanged |
| FileContent.TruncateBounds | functions/get_file_content.py:3-24 | the result keeps the text's first min(len, 10000) characters and is at most 10000 plus the marker long |
| FileContent.LongTextTruncated | functions/get_file_content.py:21-22 | a text over 10000 characters becomes its first 10000 characters followed by the marker |
| FileContent.TruncatedExactlyWhenLong | functions/get_file_content.py:21-24 | the result is longer than 10000 characters exactly when the text was, so a cut read is recognizable |
| FileContent.EscapeRejected | functions/get_file_content.py:7-12 | an escaping target gets exactly the outside-the-working-directory error, even where a readable file exists |
| FileContent.NotRegularFile | functions/get_file_content.py:15-16 | a contained target that is missing, a directory or another kind gets exactly the not-a-regular-file error |
| FileContent.ReadFailureIsError | functions/get_file_content.py:18-27 | a regular file that cannot be read or decoded gives `Error: ` followed by the failure text |
| FileContent.ShortFileUnchanged | functions/get_file_content.py:3-24 | a readable text of at most 10000 characters, exactly 10000 included, is returned unchanged |
| FileContent.LongFileTruncated | functions/get_file_content.py:21-22 | a readable text over 10000 characters returns its first 10000 characters and the marker naming the argument |
| FileContent.ErrorUnlessReadable | functions/get_file_content.py:6-27 | an unsuccessful read always gives an `Error: ` string; a successful one gives the cut text |

## Left out

- `main.py`, the command-line driver that calls a remote model, is not part of this model. It is network and console plumbing.
- `tests.py`, a script that prints tool results, is not part of this model. It calls a module that is not among these files.
- The real operating-system calls are left out: `os.listdir`, `os.path.isdir`, `os.path.isfile`, `os.path.getsize`, `open(...).read()`. They are replaced by lookups in the file-system value. Every query reads the same value. So the one race kept is a name listed by `os.listdir` that is gone by `os.path.getsize`: then `FileSystem.SizeAt` gives the `NoSuchFile` failure. Other races cannot be expressed. An entry that `os.path.isdir` finds but that is gone by `os.path.getsize` is one. A file that `os.path.isfile` finds but that changes before `open` is another, except through the read failure that the entry itself records.
- Symbolic links are not modelled. A location is its normalized names, as on a file system without links.
- Text-mode newline translation and decoding are not modelled. A file's text is the already decoded string, or a read failure.
- The exact texts of `str(e)` are parameters of the file-system value. The one exception is `os.path.getsize` on a name that has vanished, which is spelled out. Python's quoting of special characters in that path is not.
- A failing `os.getcwd()` is left out. With a relative `working_directory`, `abspath` calls `os.getcwd()`, which raises `FileNotFoundError` when the process's directory has been removed, and both tools turn that into an `Error: ...` string. The model takes the current directory as the parameter `cwd`, required to be absolute, so that call cannot fail.
- The relative branch of `normpath`, which keeps leading `..` pieces, is left out. `abspath` never reaches it.
- A non-string `directory` or `file_path` argument is left out. The arguments are strings, or an omitted `directory`.
- Paths.Join: it does not state that the result ends with its second argument. That fact is not needed by the proofs. It is visible in the body.
