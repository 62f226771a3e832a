# FolderMirror core in Dafny

FolderMirror is a small desktop tool that copies the folder hierarchy of a
source directory (folders only, never file contents) into a destination
directory and writes a log that ends with a text picture of the source tree.
This project models and proves its two walks over the folders of a tree:

- **The tree renderer** (`generate_folder_tree`). The source directory is an
  abstract tree: a `Listing` is either `Listed(entries)`, the entries in the
  order the operating system lists them, or `ListFailed(reason)`, the message
  of the exception raised when the directory cannot be listed. An `Entry` is a
  `File(name)` or a `Folder(name, listing)`. `FolderTree.Render` sorts a
  listing by name (code-point order, as Python compares `str`), skips files,
  and emits `prefix + "├── " + name + "/"` for each folder followed by that
  folder's own rendering with `prefix + "│   "`. A failed listing renders as
  the single line `prefix + "├── ERROR: " + reason`.
  `FolderTree.GenerateFolderTree` is the source's loop-and-recursion form,
  proved equal to `Render`. `FolderTreeProps` defines an independent
  pre-order walk (`PreOrder`, a sequence of visits carrying relative paths)
  and proves that the rendering is exactly that walk, one line per visit.
- **The structure replicator** (`copy_structure`). `Replicator.Copier` holds
  the state the operation changes: `fs`, the set of directories below the
  destination root, with paths given as their components and `[]` standing
  for the root itself (relative path `"."`), and the counters `copiedCount`
  and `errorCount`. `CopyStructure` checks that both paths were chosen. It
  stops with a critical error if the log file cannot be opened. Otherwise it
  renders the source tree and runs the walk loop: the root is skipped, and
  every other walked directory is created with `mkdir(parents=True,
  exist_ok=True)`. A success adds one to `copiedCount` and a failure adds one
  to `errorCount`, and the loop goes on either way. The outcome is `Success`
  exactly when there was no error. `Destination.MakeDirs` models `mkdir` with
  parents. It creates the missing ancestors from the top down, stops at the
  first directory the destination refuses, and keeps the ancestors it already
  made. An existing target is a success that changes nothing. Which
  directories the destination refuses is a parameter, the set `denied`.

The walk that `os.walk` yields is a parameter of `CopyStructure` (a sequence of
relative paths), and so is whether the log file can be opened. The order of the
walk is left open. The reference definitions `Grow`, `Attempts` and `Refused`
handle each walked path on its own, against the starting destination. The
loop's result equals them (`ReplayIsGrow`), but the model proves no lemma that
a reordered walk gives the same result. `Attempts` and `Refused` count
repeated entries, so the reference is a function of the walk's multiset; a real
`os.walk` yields each directory once.

In the source the tree is rendered before the walk loop runs
(foldermirror.py:141), and the model keeps that order. The walk comes from
`os.walk` with its default error handling, so a source directory that cannot
be listed is left out of the walk without a word. It is never attempted and
never counted as an error. The model leaves the walk abstract and so does not
claim otherwise.

## Model

| member | source | states |
|---|---|---|
| FolderTree.NameLeTotal | foldermirror.py:99 | any two names are comparable in the sort order |
| FolderTree.NameLeAntisymmetric | foldermirror.py:99 | names that sort both ways round are equal: the sort order is a total order |
| FolderTree.Insert | foldermirror.py:99 | inserting into a name-sorted listing keeps it sorted and adds exactly the one entry |
| FolderTree.Sort | foldermirror.py:99 | `sorted(path.iterdir())`: the result is sorted by name and is a permutation of the listing |
| FolderTree.Render | foldermirror.py:94-106 | the recursive form of the renderer (with `RenderEntries` for the sorted listing and `RenderEntry` for one entry): every line it returns starts with the prefix it was given; its content is pinned down by the `FolderTreeProps` lemmas |
| FolderTree.GenerateFolderTree | foldermirror.py:94-106 | the loop over the sorted listing that appends each folder's line and extends with the recursive call returns exactly `Render`; a failed listing gives its ERROR line |
| FolderTreeProps.RenderIsPreOrder | foldermirror.py:99-105 | the lines are the pre-order walk of the folders, one per visit; a folder at depth d has the prefix, d - 1 copies of `"│   "`, `"├── "`, its name and `"/"`; a failed listing at depth d has d copies, then `"├── ERROR: "` and the message |
| FolderTreeProps.RenderLength | foldermirror.py:96-105 | the number of lines is the number of folders below the root plus the number of failed listings; files add nothing |
| FolderTreeProps.CountWithoutFailures | foldermirror.py:96-102 | when no listing fails, the number of lines equals the number of descendant folders |
| FolderTreeProps.NoFoldersNoLines | foldermirror.py:99-102 | a directory holding only files, or nothing, renders as the empty sequence |
| FolderTreeProps.SubtreeSpliced | foldermirror.py:99-102 | every folder of a listing has its line followed immediately by exactly its own rendering one level deeper, whatever its siblings do |
| FolderTreeProps.FailedFolderOneErrorLine | foldermirror.py:97-105 | a folder whose listing fails gets its line and, right after it, the single line `prefix + "│   ├── ERROR: " + reason`; any sibling folder still has its own line followed by its own complete rendering |
| FolderTreeProps.ChildrenInSortedOrder | foldermirror.py:99-101 | the folders directly below a directory are visited in name order and are exactly the folders of its listing |
| FolderTreeProps.EveryLineBranches | foldermirror.py:101-105 | every line is the prefix, some continuation markers and the connector `"├── "`, whether or not its folder is the last sibling |
| FolderTreeProps.NoLastChildConnector | foldermirror.py:101-105 | no line contains `"└"` unless the prefix, a folder name or a failure message does, so `"└──"` is never produced |
| FolderTreeProps.SumOfSort | foldermirror.py:99 | sorting a listing does not change any per-entry total |
| Destination.MakeDirs | foldermirror.py:153-154 | `mkdir(parents=True, exist_ok=True)` succeeds exactly when no missing ancestor of the target is refused; afterwards the destination holds exactly the old directories plus the target's ancestors up to the first refusal |
| Destination.MakeDirsEffect | foldermirror.py:153-155 | after one call the destination is still a tree, the call succeeded exactly when the target exists, nothing existing disappears, every added directory is the target or an ancestor of it and is not a refused one, and an existing target is a success that changes nothing |
| Replicator.Step | foldermirror.py:148-162 | one pass of the loop: the root changes nothing; any other directory adds one to `copied_count` and leaves `error_count` alone when it exists afterwards, and otherwise adds one to `error_count` and leaves `copied_count` alone; the destination stays a tree, keeps what it had and gains only unrefused ancestors of that directory |
| Replicator.Replay | foldermirror.py:147-162 | the whole loop in walk order: the destination stays a tree and only grows, neither counter goes down, and together they grow by the number of non-root directories walked |
| Replicator.ReplayIsGrow | foldermirror.py:144-162 | the loop's result is the order-free reference: the destination is `Grow`, `error_count` is the number of walked non-root directories that meet a refusal, `copied_count` is the rest |
| Replicator.EveryDirectoryCountedOnce | foldermirror.py:147-162 | the root is skipped and every other walked directory adds one to exactly one counter, so `copied_count + error_count` is the number of non-root directories walked |
| Replicator.WalkedDirectoryExists | foldermirror.py:152-155 | after the walk, a walked directory exists below the destination exactly when none of its missing ancestors was refused, and then all of its ancestors exist too |
| Replicator.NothingElseCreated | foldermirror.py:153-154 | every directory created is a walked directory or an ancestor of one |
| Replicator.NoErrorsIffMirrored | foldermirror.py:159-179 | no error is counted exactly when every walked directory exists afterwards |
| Replicator.WritableDestinationHasNoErrors | foldermirror.py:152-155 | on a destination that refuses nothing, every walked directory is created and `error_count` is 0 |
| Replicator.SecondRunRepeatsFirst | foldermirror.py:153-155 | a second run over the same walk changes nothing on the destination and reports the same counts, so a clean first run is followed by a clean second run |
| Replicator.Copier.CopyStructure | foldermirror.py:108-179 | with a missing path nothing changes and the outcome is the selection error; if the log cannot be opened nothing changes and the outcome is a critical error; otherwise the tree is rendered, the destination and counters are those of the loop, and the outcome is success exactly when `error_count == 0`, otherwise completed with `error_count` errors |
| Scenarios.SampleRendering | foldermirror.py:94-106 | a tree listing C (holding D), a file and B, in that order, renders as `["├── B/", "├── C/", "│   ├── D/"]` |
| Scenarios.SampleCopyCounts | foldermirror.py:144-162 | walking that tree into a destination holding only its root gives `copied_count == 3` and `error_count == 0` |
| Scenarios.SampleCopyDestination | foldermirror.py:147-155 | afterwards the destination holds exactly B, C and C/D below its root |

## Left out

- The Tkinter interface is not modelled: the window, the folder pickers, the status text, its colours and the message boxes (foldermirror.py:10-92 and the GUI calls in 108-189). The message boxes appear only as the `Outcome` values they announce.
- Logging is not modelled: the logger set-up, the handlers and every log call, including the per-directory lines (foldermirror.py:24-36, 127-137, 156-162, 181-183). These are I/O.
- The log file name, built from the clock, is not modelled (foldermirror.py:124-125).
- Writing the tree into the log is not modelled (foldermirror.py:165-168). `CopyStructure` returns the lines that would be written.
- The summary text is not modelled (foldermirror.py:171-173).
- Replicator.Copier.CopyStructure: the only critical error it models is failing to open the log file, given as the parameter `logOpens`. A failure while writing the tree or the summary also ends in the critical-error branch (foldermirror.py:185-189), after directories were created; the model does not cover that. The stack trace text is left out too.
- `os.walk` and `os.path.relpath` are not modelled (foldermirror.py:147-148). The walk is a parameter given as relative paths, with the root as `[]`. So the model does not capture the walk order, or that `os.walk` silently skips directories it cannot list.
- `Path.is_dir` is treated as unable to fail. In the source, an exception from `is_dir` on one entry would end that directory's loop: the lines already produced would stay, followed by the ERROR line. In the model a listing either works or fails as a whole.
- Destination.MakeDirs: refusals come from a fixed set of paths, so a failure cannot be transient. A target that already exists as a file (for example one named like the log file) is not modelled; `exist_ok` would not save that call.
- FolderTree.Sort: names are compared by code point, which is how POSIX paths compare. Windows paths compare without case, and that is not modelled.
- Symbolic links and cycles are not modelled. The abstract tree is finite by construction.
- Exception messages are opaque strings (`reason`).
