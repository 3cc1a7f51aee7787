# A verified model of the rules inside the PyQt6 "Ultimate GUI" windows

The repository holds two versions of one PyQt6 desktop window: `project.py`, which uses background workers and a loading overlay, and `Gui.py`, which is synchronous. Most of their code is widget glue. This project models the few sequential rules buried in that glue and proves what they promise:

- **the image gallery** (module `Gallery`, class `Gallery.Navigator`):
  - the folder listing is filtered to image names by a case-insensitive extension test;
  - the cursor resets to 0 on load;
  - Next and Previous move the cursor with wrap-around;
  - the label shows the 1-based counter "Image i / n".
- **the `|||` string protocol** of `project.py` (module `Packing`). A background worker flattens its result into one string with `|||` between the fields, and the `*_finished` slot splits it again. This covers `read_file` / `read_file_finished` and `list_directory` / `list_directory_finished`.
- **the file-tool name rules** of `Gui.py` (module `FileTools`):
  - the free name a copy gets;
  - where rename and move put their target;
  - the sorted folder/file listing with its counts.
- **the window's own state** (module `Shell`, class `Shell.MainWindow`):
  - the media handles that `cleanup_resources` releases and a new page acquires;
  - the page `switch_page` shows for a menu row;
  - the six-state loading spinner.

Supporting modules model the Python semantics these rules depend on:

| module | models |
|---|---|
| `Text` | `str.split` / `str.join` / `str.find` / `endswith` / ASCII `lower` |
| `Numerals` | `str(n)` and `int(s)` |
| `Paths` | `posixpath.basename` / `dirname` / `join`, `splitext` |
| `Cyclic` | Python's `%` on a cursor |
| `Entries` | the `isdir` / `isfile` comprehensions |
| `Sorting` | `sorted` on strings, by code point |
| `Wrappers` | `Option` |

Where the source mutates state, the model is imperative:

- the gallery loader's `for`/append loop;
- the cursor updates;
- `cleanup_resources` clearing fields one by one, and the page builders setting them;
- the spinner tick;
- the copy-name `while` loop.

Each such method's `ensures` ties the new state to a specification function (`ImagePaths`, `Cyclic.Succ`/`Pred`, `Released` and `Acquired`, `CopyName`), and the properties are proved as lemmas about those functions. The protocol, the path rules and the listing report are expressions in the source, so they are functions here.

Where the code and its informal description differ, the model follows the code:

- **Round-trip precondition.** A field that travels through the protocol must not contain `'|'` at all. Excluding the substring `"|||"` is not enough: a name `x|` followed by the separator reads as `x` plus a piece starting with `|`. The one exception is read_file's content, which is the last field, so the weaker condition suffices there (`Packing.ReadFileRoundTrip`).
- **Video widget.** `project.py`'s `cleanup_resources` never clears `video_widget`; `Gui.py`'s does (Gui.py:185). The constant `Shell.MainWindow.variant` selects the window being modelled.
- **Counter update on load.** The counter label is only set when the current image decodes (`pix.isNull()` false). The set of decodable paths is therefore a parameter of the navigator methods.

## Model

| member | source | states |
|---|---|---|
| Text.Find | project.py:838 | the first index where the separator matches, and no match before it; `None` exactly when the separator occurs nowhere |
| Text.Split | project.py:838 | `str.split` always yields at least one piece |
| Text.JoinSplit | project.py:838 | joining the pieces of a split with the separator gives back the original string |
| Text.SplitPiecesFree | project.py:838 | no piece of a split contains the separator, and each piece but the last ends where the first separator after it begins: the split cuts left to right at non-overlapping first occurrences |
| Text.FindInPrefix | project.py:838 | the first separator of a string is still the first one of any prefix that contains it whole |
| Text.SplitJoin | project.py:951 | splitting the join of a non-empty list of `'\|'`-free pieces gives back exactly that list |
| Text.Lower | project.py:341 | `lower()` keeps the length and lowercases each ASCII letter, leaving other characters alone |
| Text.DropEmpty | project.py:960-967 | the `if folder:` / `if file:` filters leave no empty name and never lengthen the list |
| Text.DropEmptyMembers | project.py:960-967 | a name survives the filters exactly when it was listed and is non-empty |
| Text.DropEmptyAppend | project.py:960-967 | the filters keep order: filtering a concatenation is concatenating the filtered parts |
| Text.DropEmptyKeeps | project.py:960-967 | a list without empty names passes the filters unchanged |
| Numerals.Decimal | project.py:941 | `str(n)` of a natural number is a non-empty string of digits without a leading zero |
| Numerals.DecimalRoundTrip | project.py:955 | `int(str(n)) == n`: the folder count read back is the count written |
| Numerals.DecimalInjective | project.py:381 | different numbers print differently |
| Numerals.ParseInt | project.py:955 | `int(s)` succeeds exactly on a non-empty run of digits, optionally signed; an unsigned run reads as its decimal value, and a signed one as that value of its digits with the sign applied |
| Paths.RFind | Gui.py:744 | the last position of a character, or -1 when it does not occur |
| Paths.Basename | Gui.py:744 | `basename` has no `'/'`, is a suffix of the path, and is the whole path or starts right after a `'/'` |
| Paths.RStripSlashes | Gui.py:719 | stripping trailing slashes yields a prefix that does not end in `'/'` (or is all slashes), and only slashes were removed |
| Paths.Dirname | Gui.py:719 | `dirname` is a prefix of the path before its basename, a directory as `join` expects it (empty, all slashes, or not ending in `'/'`), separated from the basename by slashes only, and empty for a path without `'/'` |
| Paths.Join | Gui.py:720 | `join(a, b)` ends in `b`; an absolute `b` replaces `a`; otherwise the result starts with `a` |
| Paths.BasenameOfJoin | Gui.py:720 | `basename(join(d, n)) == n` for a name without `'/'` |
| Paths.DirnameOfJoin | Gui.py:720 | `dirname(join(d, n)) == d` for such a name and such a directory |
| Paths.SplitExt | Gui.py:749 | `splitext` splits the name into `base + ext`; `ext` is empty or a dot followed by no dot and no `'/'`; `ext` is non-empty exactly when the last dot lies in the last component after a non-dot character |
| Cyclic.Succ | project.py:387 | `(i + 1) % n` is a valid index |
| Cyclic.Pred | project.py:392 | `(i - 1) % n` is a valid index, and `n - 1` at `i = 0` |
| Cyclic.PredSucc | project.py:385-393 | Previous after Next and Next after Previous both restore the cursor |
| Cyclic.IterateIsAdd | project.py:385-388 | `k` presses of Next move the cursor to `(i + k) % n` |
| Cyclic.FullCycle | project.py:385-388 | `n` presses of Next return to the start |
| Cyclic.NoShorterCycle | project.py:385-388 | fewer than `n` presses never return to the start |
| Entries.SelectExactly | Gui.py:825-826 | a name is in the folder (file) comprehension exactly when it is listed and classified as a directory (file) |
| Entries.SelectAppend | project.py:939-940 | the comprehensions keep listing order: they distribute over concatenation |
| Entries.PartitionSize | Gui.py:825-826 | the two comprehensions together are no longer than the listing |
| Entries.PartitionDisjoint | Gui.py:825-826 | no name is in both comprehensions |
| Sorting.LessEqTotal | Gui.py:829 | Python's string order is total |
| Sorting.LessEqTransitive | Gui.py:829 | and transitive |
| Sorting.LessEqAntisymmetric | Gui.py:829 | and antisymmetric |
| Sorting.Insert | Gui.py:829 | inserting into a sorted list keeps it sorted and adds exactly the one element |
| Sorting.Sort | Gui.py:829-833 | `sorted` returns a sorted permutation of its input |
| Sorting.SortedUnique | Gui.py:829-833 | two sorted permutations of one list are equal, so `Sort` is `sorted` |
| Gallery.ImagePaths | project.py:340-342 | the gallery list has one entry per image name: the name joined to the folder, in listing order |
| Gallery.ImageNamesExactly | project.py:341 | the filter keeps exactly the listed names whose lower-cased form ends in .png, .jpg, .jpeg or .bmp |
| Gallery.ImageNamesAppend | project.py:340-342 | the filter keeps listing order: it distributes over concatenation |
| Gallery.CounterDistinct | project.py:381 | different cursor positions show different "Image i / n" counters |
| Gallery.Navigator.constructor | project.py:158-159 | the window starts with no images and the cursor at 0 |
| Gallery.Navigator.DisplayCurrent | project.py:371-381 | the counter becomes "Image {index+1} / {n}" when the current image decodes, and is otherwise unchanged; `Valid` is kept |
| Gallery.Navigator.Load | project.py:336-342 | the list becomes the folder's image paths in listing order (empty when listing fails), the cursor 0, and the first image is displayed; `Gui.py`'s `show_gallery` (Gui.py:212-218) has the same code |
| Gallery.Navigator.Next | project.py:385-388 | on a non-empty list the cursor becomes `Succ(index, n)` and stays in range; on an empty list nothing changes; `Gui.py` (Gui.py:272-275) has the same code |
| Gallery.Navigator.Prev | project.py:390-393 | on a non-empty list the cursor becomes `Pred(index, n)` and stays in range; on an empty list nothing changes; `Gui.py` (Gui.py:277-280) has the same code |
| Shell.PageForRow | project.py:250-270 | exactly rows 0..6 show a page, and the page shown is the one listed under that row; `Gui.py`'s code (Gui.py:128-146) dispatches the same way |
| Shell.DispatchMatchesMenu | project.py:250-270 | each page's menu row shows that page, and that row of the menu carries the page's title |
| Shell.SpinnerPeriod | project.py:229-237 | the spinner shows a glyph again after six ticks and never sooner |
| Shell.Released | project.py:272-296 | after cleanup, timer, capture, video player and audio player are gone; the video widget remains exactly when it existed and the window is project.py's (Gui.py:185 clears it) |
| Shell.Acquired | project.py:474-485 | building the video page creates the video widget and media player, the music page (project.py:520-533) the audio player, and `Gui.py`'s camera page (Gui.py:285-312) the capture and, when the camera opens, the frame timer; every handle the page does not create is left as it was |
| Shell.SwitchLeavesOnlyPageHandles | project.py:250-296 | after a switch the media player, audio player, capture and frame timer are live exactly when the page shown is the one that creates them; only project.py's stale video widget outlives its page |
| Shell.ReleasedIdempotent | project.py:272-296 | cleaning up twice is cleaning up once |
| Shell.MainWindow.constructor | project.py:153-182 | the window starts with no media handle, on the home page |
| Shell.MainWindow.CleanupResources | project.py:272-296 | the handles become `Released` of the old handles; page and spinner are unchanged and `Valid` is kept; for `Gui.py` (Gui.py:148-185) the video widget is cleared too |
| Shell.MainWindow.SwitchPage | project.py:250-270 | the handles become those the new page acquires on top of the released ones (`Acquired` of `Released`); the page becomes the one row `index` dispatches to; in project.py the gallery and camera pages, once access is granted (project.py:304-320, 395-411), open the loading spinner at glyph 0, and otherwise the spinner is unchanged; `Valid` is kept; `Gui.py`'s `switch_page` (Gui.py:128-146) has the same code |
| Shell.MainWindow.OpenCamera | project.py:413-433 | `_open_camera` creates the capture and, when the camera opened, the frame timer; nothing else changes, and the window invariant is kept |
| Shell.MainWindow.ShowLoading | project.py:211-229 | a new spinner label shows the first glyph, with state 0 |
| Shell.MainWindow.UpdateSpinner | project.py:234-237 | once a label exists, the state becomes `(state + 1) % 6` and the label shows that glyph; the state stays in [0, 6) |
| Packing.DecimalBarFree | project.py:941 | a count never contains `'\|'` |
| Packing.EncodeReadFile | project.py:828 | the separator follows the basename, and for a `'\|'`-free basename it is the first separator of the result |
| Packing.ShowContent | project.py:843-845 | the log shows exactly the first `min(1000, len)` characters, and the "(truncated)" marker exactly when the content is longer than 1000 |
| Packing.DecodeReadFile | project.py:838-840 | neither name nor content contains the separator; with a separator present the name is what precedes the first one, the content is what follows it up to the next separator (or to the end when there is none), and name, separator, content form a prefix of the output; without one the name is the whole output and the content empty |
| Packing.ReadFileFinished | project.py:834-848 | a failed worker's output is reported as the error; a successful one shows a name and an excerpt that contain no separator |
| Packing.SplitAfterField | project.py:838 | splitting after a `'\|'`-free first field yields that field first |
| Packing.ReadFileRoundTrip | project.py:828-840 | a name without `'\|'` and a content without `"\|\|\|"` decode to themselves, and the log shows `ShowContent` of them |
| Packing.ReadFileWithoutSeparator | project.py:838-840 | an output without a separator decodes to name = output, content = "" |
| Packing.ReadFileKeepsFirstPiece | project.py:828-840 | as written, for any `'\|'`-free name the content shown is only the first piece of the content's own split, strictly shorter than the content whenever it holds `"\|\|\|"` |
| Packing.ReadFileCutsContent | project.py:838-840 | as written, file `f` holding `a\|\|\|b` is shown as holding `a` |
| Packing.DecodeReadFileOnce | project.py:838-840 | corrected decoding: the name is separator-free and, with a separator present, precedes the first separator while the content is everything after it, so name, separator and content make up the whole output; without one the name is the whole output |
| Packing.ReadFileFinishedOnce | project.py:834-848 | corrected slot: the error path as written; on success a separator-free name, and an output without separator shows as an empty file named by the output |
| Packing.ReadFileOnceRoundTrip | project.py:828-840 | with the corrected decoding every content comes back whole |
| Packing.Take | project.py:941 | `s[:n]` is the first `min(n, len)` elements |
| Packing.SliceBound | project.py:955-956 | a normalised slice bound lies within the list |
| Packing.EncodeListing | project.py:941 | the worker's string is the separator-join of the directory, the two counts and the pieces of the first 20 folder and file names |
| Packing.PySliceBounds | project.py:955-956 | a slice holds only elements of the list, and at most `hi - lo` of them |
| Packing.SliceListingNames | project.py:955-967 | after slicing and filtering, every name shown is a non-empty piece of the output, and a count `k >= 0` bounds the folders shown |
| Packing.DecodeListing | project.py:950-967 | the slot raises exactly when the output has fewer than three pieces or the folder count is no integer; every name it shows is a non-empty piece of the output |
| Packing.ListDirectoryFinished | project.py:950-970 | the error is reported exactly when the worker failed, as its output; the slot crashes exactly when a successful output does not decode |
| Packing.Segment | project.py:941 | `'\|\|\|'.join([])` still contributes one (empty) piece |
| Packing.EncodingPieces | project.py:941 | splitting the worker's string gives exactly the directory, the two counts, the separately joined folder names and file names |
| Packing.ListingRoundTrip | project.py:938-967 | with at most 20 folders and `'\|'`-free non-empty names: the directory, both true counts, all folders and the first 20 files come back; this includes empty folder or file lists decoding to empty lists |
| Packing.SliceListingPastEnd | project.py:955-956 | a folder count past the last piece takes every remaining piece for folders and leaves no file |
| Packing.Swallowed | project.py:955-956 | the number of file names the folder slice takes never exceeds those sent |
| Packing.ListingSwallowsFiles | project.py:941-956 | as written, with more than 20 folders the first `len(folders) - 20` file names sent are shown as folders and are missing from the files |
| Packing.TwentyOneFolders | project.py:941-956 | 21 folders `d` and one file `f` show 21 folders, the last being `f`, and no file |
| Packing.ListingCappedRoundTrip | project.py:951-967 | with the folder slice capped at 20, any listing with a `'\|'`-free directory and non-empty `'\|'`-free names comes back with both true counts, the first 20 folders and the first 20 files |
| Packing.DecodeListingCapped | project.py:950-967 | corrected decoding: it raises in the same cases as written, shows only non-empty pieces, and never more than 20 folders for a non-negative count |
| Packing.ListDirectoryFinishedCapped | project.py:950-970 | corrected slot: error and crash cases as written, with the capped decoding |
| Packing.ListDirectoryRoundTrip | project.py:938-967 | worker and slot as written, from the directory listing: with at most 20 folders and non-empty `'\|'`-free names, the slot lists the directory, both true counts, every folder in listing order and the first 20 files |
| Packing.ListDirectoryCappedRoundTrip | project.py:938-967 | worker and corrected slot from the directory listing: with a `'\|'`-free directory and non-empty `'\|'`-free names, any number of folders comes back as both true counts and the first 20 folders and files |
| FileTools.CopyNameInjective | Gui.py:752 | different counters give different copy names |
| FileTools.CopyNameLonger | Gui.py:752 | a copy name is never the source's own name |
| FileTools.CopyNameNoSlash | Gui.py:749-752 | a copy name built from a basename has no `'/'` |
| FileTools.ChooseCopyName | Gui.py:744-753 | the name is never an existing one; it is the source's name when that is free, and otherwise `base_copyK ext` for the smallest `K >= 1` not taken; it always ends in `ext`; the loop terminates on a finite set |
| FileTools.SubsetSize | Gui.py:751 | a subset is no larger (the loop's termination measure) |
| FileTools.CopyTarget | Gui.py:734-755 | no target when either dialog is cancelled; otherwise a path whose name no existing entry has, lying in the destination when that is as the folder dialog returns it (no trailing `'/'`), equal to the source's name when that is free |
| FileTools.RenameTarget | Gui.py:705-722 | rename aborts exactly when no entry was picked, the dialog was cancelled or the name is empty; otherwise, for a name without `'/'`, the new path lies in the entry's directory and has the new name as basename (a name with `'/'` is joined as typed and may land elsewhere) |
| FileTools.MoveTarget | Gui.py:768-778 | no target exactly when a dialog is cancelled; otherwise the moved entry keeps its basename and, for a destination as the folder dialog returns it (no trailing `'/'`), lands directly in the destination |
| FileTools.Report | Gui.py:823-836 | both lists are sorted, are permutations of the folder and file comprehensions, and the printed counts are their lengths |
| FileTools.ListDirectory | Gui.py:814-840 | cancelled exactly when no directory was chosen, failed exactly when `listdir` raised, and otherwise the report of the listing |
| FileTools.ReportExactly | Gui.py:825-836 | the report lists exactly the folders and exactly the files of the listing, and no name in both |

## Left out

- Widgets, layouts, style sheets, message boxes, animations and file dialogs are not modelled. A dialog's answer is a parameter; `""` means "cancelled".
- Camera capture, frame conversion, and video/audio playback (`update_frame`, `take_photo`, `load_video`, `load_audio`) are not modelled. They are wrappers over OpenCV and QtMultimedia. Only the presence of their handles is modelled.
- The background worker, `time.sleep` and the progress timer are not modelled; they are concurrency and timing. Each worker's `(output, success)` pair is an input to the `*_finished` decoders.
- File-system effects (`open`, `copy2`, `move`, `rename`, `listdir`, `isdir`/`isfile`, `exists`) are abstracted. The model uses a set of existing names, a kind map, and an `Option` listing that is `None` when `listdir` raises. The errors those calls raise after the target is computed are not modelled.
- `format_size` and the file sizes `Gui.py`'s listing prints are not modelled, because they use floating-point division and `%.1f` formatting.
- The ping/ipconfig subprocesses, `os.startfile`, timestamps, and the unreachable code after `ping_google`'s `return` are not modelled.
- `hide_loading` and the spinner timer's start and stop are not modelled. `Shell.MainWindow.constructor` sets the spinner state to 0 before any `show_loading`; the source never reads it before then.
- Shell.Acquired: takes `cv2.VideoCapture(0)` in `Gui.py`'s camera page to return a capture object; when it raises (Gui.py:294-307) no capture is kept, and that case is not modelled.
- Shell.MainWindow.OpenCamera: the 500 ms delay before `_open_camera` runs is not modelled; the method is its effect whenever it fires, even after the page was left.
- Shell.MainWindow.constructor: as written, `Gui.py`'s window is never built. Its `__init__` calls `animate_entry` (Gui.py:88), which passes `self.animate_pages_zoom`, a method `Gui.py` does not define, to `QTimer.singleShot` (Gui.py:120), so `AttributeError` escapes the constructor. Even without that line, `animate_entry` calls itself unconditionally (Gui.py:123). Every contract stated for the `GuiWindow` variant, and every `Gui.py` span cited for the gallery, file tools and page switch, describes that code as it would run once the entry animation is repaired. The model does not capture the failing constructor.
- `image.py` is not part of this model; it is an I/O-only copy script.
- Text.Lower: lowercases ASCII letters only, not Unicode case mapping.
- Numerals.ParseInt: accepts an optional sign and ASCII digits only, not the surrounding whitespace, underscores or non-ASCII digits `int()` also accepts. The counts the worker writes never use those.
- Paths.Basename: follows `posixpath` (`'/'` separators only), not Windows' `ntpath` with backslashes and drive letters, although the program targets Windows too (`os.startfile`, `ping -n`). The same holds for Paths.Dirname, Paths.Join (`ntpath.join` inserts `'\\'` and keeps the drive of `a` for a rooted `b`), Paths.SplitExt, and the copy, rename and move targets FileTools builds from them.
- Gallery.Navigator.DisplayCurrent: does not model the pixmap itself or `Gui.py`'s error text on an image that fails to decode.
- FileTools.Report: does not model a `getsize` failure part-way through the listing.

## Findings

| source | as written | input that shows it | evidently intended | confidence | as-written member | corrected member |
|---|---|---|---|---|---|---|
| project.py:955-956 | the folder slice is `parts[3:3+int(folder_count)]`, but the count is `len(folders)` and only `folders[:20]` are sent | 21 folders `d` and one file `f`: 21 folders are shown, the last named `f`, and no file | slice only the folder names actually sent, at most 20 | high (proved; not executed) | Packing.TwentyOneFolders | Packing.ListingCappedRoundTrip |
| project.py:838-840 | the content is `parts[1]` only | a file `f` holding `a\|\|\|b` is shown as holding `a` | split once, `output.split("\|\|\|", 1)`, so the content is all after the first separator | high (proved; not executed) | Packing.ReadFileKeepsFirstPiece | Packing.ReadFileOnceRoundTrip |
