/** The string protocol between project.py's background workers and the
    window: a worker flattens its result into one string whose fields are
    separated by "|||", and the `*_finished` slot splits it again. Covers
    `read_file` / `read_file_finished` and `list_directory` /
    `list_directory_finished`. */
module Packing {
  import opened Wrappers
  import Text
  import Numerals
  import Entries

  const Sep: string := "|||"

  /** A field that can travel through the protocol unambiguously: it holds
      no '|' at all (Windows forbids the character in file names). */
  predicate BarFree(s: string) {
    '|' !in s
  }

  lemma DecimalBarFree(n: nat)
    ensures BarFree(Numerals.Decimal(n))
  {
    var s := Numerals.Decimal(n);
    assert forall i :: 0 <= i < |s| ==> s[i] != '|';
  }

  // ---------------------------------------------------------------- read_file

  /** The read worker's result: `f"{os.path.basename(filepath)}|||{content}"`. */
  function EncodeReadFile(basename: string, content: string): (r: string)
    ensures Text.MatchAt(r, Sep, |basename|)
    ensures BarFree(basename) ==> Text.Find(r, Sep) == Some(|basename|)
  {
    var r := basename + Sep + content;
    assert r[|basename|..|basename| + |Sep|] == Sep;
    if BarFree(basename) then Text.FindAfter(basename, Sep, content); r else r
  }

  /** How many characters of the content the log pane shows. */
  const ExcerptLength: nat := 1000

  /** What `read_file_finished` appends to the log: the file name, the first
      1000 characters of the content and, for a longer content, the
      "(truncated)" marker; or the worker's error message. */
  datatype ReadReport = Shown(filename: string, excerpt: string, truncated: bool) | ReadError(message: string)

  /** `content[:1000]` together with the `len(content) > 1000` test. */
  function ShowContent(filename: string, content: string): (r: ReadReport)
    ensures r.Shown? && r.filename == filename
    ensures |r.excerpt| == (if |content| < ExcerptLength then |content| else ExcerptLength)
    ensures r.excerpt == content[..|r.excerpt|]
    ensures r.truncated <==> |content| > ExcerptLength
    ensures !r.truncated <==> r.excerpt == content
  {
    var n := if |content| < ExcerptLength then |content| else ExcerptLength;
    Shown(filename, content[..n], |content| > ExcerptLength)
  }

  /** `read_file_finished`'s decoding as written: the name is the first
      piece of the split, the content the second piece, or "" when there
      is no second piece. */
  function DecodeReadFile(output: string): (r: (string, string))
    ensures !Text.Contains(r.0, Sep) && !Text.Contains(r.1, Sep)
    ensures Text.Contains(output, Sep) ==>
              Text.Find(output, Sep) == Some(|r.0|)
              && |r.0| + |Sep| + |r.1| <= |output| && output[..|r.0| + |Sep| + |r.1|] == r.0 + Sep + r.1
    ensures Text.Contains(output, Sep) ==>
              var rest := output[|r.0| + |Sep|..];
              if Text.Contains(rest, Sep) then Text.Find(rest, Sep) == Some(|r.1|) else r.1 == rest
    ensures !Text.Contains(output, Sep) ==> r == (output, "")
  {
    var parts := Text.Split(output, Sep);
    Text.SplitPiecesFree(output, Sep);
    assert !Text.Contains("", Sep);
    match Text.Find(output, Sep)
    case None => (output, "")
    case Some(i) =>
      FirstTwoPieces(output, i);
      (parts[0], if |parts| > 1 then parts[1] else "")
  }

  /** Where the separator first occurs at `i`, the split's first piece is
      what precedes it and its second piece starts right after it. */
  lemma FirstTwoPieces(output: string, i: nat)
    requires Text.Find(output, Sep) == Some(i)
    ensures var parts := Text.Split(output, Sep);
            |parts| >= 2 && parts[0] == output[..i]
            && i + |Sep| + |parts[1]| <= |output|
            && output[..i + |Sep| + |parts[1]|] == output[..i] + Sep + parts[1]
            && var rest := output[i + |Sep|..];
               if Text.Contains(rest, Sep) then Text.Find(rest, Sep) == Some(|parts[1]|) else parts[1] == rest
  {
    var rest := output[i + |Sep|..];
    var tail := Text.Split(rest, Sep);
    assert Text.Split(output, Sep) == [output[..i]] + tail;
    Text.SplitHeadPrefix(rest, Sep);
    PrefixThrough(output, i, tail[0]);
    match Text.Find(rest, Sep)
    case None =>
    case Some(j) => Text.SplitFirstPiece(rest, Sep, j);
  }

  /** A separator at `i` followed by a prefix `t` of what comes after it
      makes up, with what precedes it, a prefix of the string. */
  lemma PrefixThrough(s: string, i: nat, t: string)
    requires Text.MatchAt(s, Sep, i)
    requires |t| <= |s[i + |Sep|..]| && t == s[i + |Sep|..][..|t|]
    ensures s[..i + |Sep| + |t|] == s[..i] + Sep + t
  {
    assert s[..i + |Sep| + |t|] == s[..i] + s[i..i + |Sep|] + s[i + |Sep|..i + |Sep| + |t|];
  }

  /** `read_file_finished(output, success)` as written. */
  function ReadFileFinished(output: string, success: bool): (r: ReadReport)
    ensures !success ==> r == ReadError(output)
    ensures success ==> r.Shown? && !Text.Contains(r.filename, Sep) && !Text.Contains(r.excerpt, Sep)
  {
    if !success then ReadError(output)
    else
      var (filename, content) := DecodeReadFile(output);
      Text.PrefixFree(content, Sep, |ShowContent(filename, content).excerpt|);
      ShowContent(filename, content)
  }

  /** Splitting after a separator-free first field yields that field first. */
  lemma SplitAfterField(a: string, rest: string)
    requires BarFree(a)
    ensures Text.Split(a + Sep + rest, Sep) == [a] + Text.Split(rest, Sep)
  {
    Text.FindAfter(a, Sep, rest);
    var s := a + Sep + rest;
    assert s[..|a|] == a;
    assert s[|a| + |Sep|..] == rest;
  }

  /** Read round trip: a name without '|' and a content without "|||" come
      back unchanged, and the log shows the first 1000 characters and the
      marker exactly when the content is longer. */
  lemma ReadFileRoundTrip(basename: string, content: string)
    requires BarFree(basename) && !Text.Contains(content, Sep)
    ensures DecodeReadFile(EncodeReadFile(basename, content)) == (basename, content)
    ensures ReadFileFinished(EncodeReadFile(basename, content), true) == ShowContent(basename, content)
  {
    SplitAfterField(basename, content);
  }

  /** An output without a separator is all name and no content. */
  lemma ReadFileWithoutSeparator(output: string)
    requires !Text.Contains(output, Sep)
    ensures DecodeReadFile(output) == (output, "")
  {
  }

  /** As written, for any name without '|', the content shown is only the
      first piece of the content's own split: everything from its first
      "|||" on is lost. */
  lemma ReadFileKeepsFirstPiece(basename: string, content: string)
    requires BarFree(basename)
    ensures DecodeReadFile(EncodeReadFile(basename, content)) == (basename, Text.Split(content, Sep)[0])
    ensures Text.Contains(content, Sep) ==> |DecodeReadFile(EncodeReadFile(basename, content)).1| < |content|
  {
    var s := EncodeReadFile(basename, content);
    Text.SplitFirstPiece(s, Sep, |basename|);
    assert s[..|basename|] == basename;
    assert s[|basename| + |Sep|..] == content;
    assert Text.Split(s, Sep) == [basename] + Text.Split(content, Sep);
    match Text.Find(content, Sep)
    case None =>
    case Some(j) =>
      Text.SplitFirstPiece(content, Sep, j);
  }

  /** As written, a content holding "|||" is cut at its first occurrence:
      the file `f` holding `a|||b` is shown as holding `a`. */
  lemma ReadFileCutsContent()
    ensures DecodeReadFile(EncodeReadFile("f", "a|||b")) == ("f", "a")
  {
    assert EncodeReadFile("f", "a|||b") == Text.Join(["f", "a", "b"], Sep);
    Text.SplitJoin(["f", "a", "b"], Sep);
  }

  /** The decoding evidently intended, Python's `output.split("|||", 1)`:
      the name is what precedes the first separator, the content all that
      follows it. */
  function DecodeReadFileOnce(output: string): (r: (string, string))
    ensures !Text.Contains(r.0, Sep)
    ensures Text.Contains(output, Sep) ==> output == r.0 + Sep + r.1 && Text.Find(output, Sep) == Some(|r.0|)
    ensures !Text.Contains(output, Sep) ==> r == (output, "")
  {
    match Text.Find(output, Sep)
    case None => (output, "")
    case Some(i) =>
      Text.FindPrefix(output, Sep, i);
      assert output == output[..i] + Sep + output[i + |Sep|..];
      (output[..i], output[i + |Sep|..])
  }

  /** `read_file_finished` with the corrected decoding. */
  function ReadFileFinishedOnce(output: string, success: bool): (r: ReadReport)
    ensures !success ==> r == ReadError(output)
    ensures success ==> r.Shown? && !Text.Contains(r.filename, Sep)
    ensures success && !Text.Contains(output, Sep) ==> r == Shown(output, "", false)
  {
    if !success then ReadError(output)
    else
      var (filename, content) := DecodeReadFileOnce(output);
      ShowContent(filename, content)
  }

  /** With the corrected decoding every content comes back whole. */
  lemma ReadFileOnceRoundTrip(basename: string, content: string)
    requires BarFree(basename)
    ensures DecodeReadFileOnce(EncodeReadFile(basename, content)) == (basename, content)
    ensures ReadFileFinishedOnce(EncodeReadFile(basename, content), true) == ShowContent(basename, content)
  {
    Text.FindAfter(basename, Sep, content);
    var s := EncodeReadFile(basename, content);
    assert s[..|basename|] == basename;
    assert s[|basename| + |Sep|..] == content;
  }

  // ----------------------------------------------------------- list_directory

  /** How many names of each kind the worker sends. */
  const ListLimit: nat := 20

  /** `s[:n]`. */
  function Take(s: seq<string>, n: nat): (r: seq<string>)
    ensures |r| == (if |s| < n then |s| else n) && r == s[..|r|]
  {
    if |s| < n then s else s[..n]
  }

  /** The list worker's result:
      `f"{directory}|||{len(folders)}|||{len(files)}|||{'|||'.join(folders[:20])}|||{'|||'.join(files[:20])}"`. */
  function EncodeListing(directory: string, folders: seq<string>, files: seq<string>): (r: string)
    ensures r == Text.Join(Pieces(directory, folders, files), Sep)
  {
    var c1, c2 := Numerals.Decimal(|folders|), Numerals.Decimal(|files|);
    var x, y := Segment(Take(folders, ListLimit)), Segment(Take(files, ListLimit));
    JoinSegment(Take(folders, ListLimit));
    JoinSegment(Take(files, ListLimit));
    JoinThree(directory, c1, c2);
    Text.JoinAppend([directory, c1, c2], x, Sep);
    Text.JoinAppend([directory, c1, c2] + x, y, Sep);
    directory + Sep + Numerals.Decimal(|folders|) + Sep + Numerals.Decimal(|files|)
    + Sep + Text.Join(Take(folders, ListLimit), Sep) + Sep + Text.Join(Take(files, ListLimit), Sep)
  }

  /** What `list_directory_finished` shows: the directory, the two counts
      as received, and the non-empty folder and file names. */
  datatype Listing = Listing(directory: string, folderCount: string, fileCount: string,
                             folders: seq<string>, files: seq<string>)

  /** The slot's outcomes: a listing, the worker's error message, or an
      exception in the slot itself (a missing field or a count `int`
      rejects), which aborts a PyQt6 application. */
  datatype ListReport = Listed(listing: Listing) | ListError(message: string) | Crashed

  /** Python's normalisation of a slice bound against a length `n`. */
  function SliceBound(i: int, n: nat): (r: nat)
    ensures r <= n
  {
    if i < 0 then (if n + i < 0 then 0 else n + i)
    else if i > n then n
    else i
  }

  /** `s[lo:hi]`, negative bounds counting from the end. */
  function PySlice<T>(s: seq<T>, lo: int, hi: int): seq<T> {
    var a, b := SliceBound(lo, |s|), SliceBound(hi, |s|);
    if a <= b then s[a..b] else []
  }

  /** The slot's slicing once the folder count `k` is known:
      `parts[3:3+k] if len(parts) > 3 else []` and
      `parts[3+k:] if len(parts) > 3+k else []`, empty names then skipped. */
  function SliceListing(parts: seq<string>, k: int): Listing
    requires |parts| >= 3
  {
    var folders := if |parts| > 3 then PySlice(parts, 3, 3 + k) else [];
    var files := if |parts| > 3 + k then PySlice(parts, 3 + k, |parts|) else [];
    Listing(parts[0], parts[1], parts[2], Text.DropEmpty(folders), Text.DropEmpty(files))
  }

  /** A slice holds only elements of the list, and no more than `hi - lo` of them. */
  lemma PySliceBounds<T>(s: seq<T>, lo: int, hi: int)
    ensures forall x :: x in PySlice(s, lo, hi) ==> x in s
    ensures 0 <= lo <= hi ==> |PySlice(s, lo, hi)| <= hi - lo
  {
  }

  /** The names the slicing shows are non-empty pieces, and a count `k >= 0`
      bounds the folders shown. */
  lemma SliceListingNames(parts: seq<string>, k: int)
    requires |parts| >= 3
    ensures forall x :: x in SliceListing(parts, k).folders ==> x != "" && x in parts
    ensures forall x :: x in SliceListing(parts, k).files ==> x != "" && x in parts
    ensures k >= 0 ==> |SliceListing(parts, k).folders| <= k
  {
    var l := SliceListing(parts, k);
    PySliceBounds(parts, 3, 3 + k);
    PySliceBounds(parts, 3 + k, |parts|);
    var folders := if |parts| > 3 then PySlice(parts, 3, 3 + k) else [];
    var files := if |parts| > 3 + k then PySlice(parts, 3 + k, |parts|) else [];
    forall x | x in l.folders
      ensures x != "" && x in parts
    {
      Text.DropEmptyMembers(folders, x);
    }
    forall x | x in l.files
      ensures x != "" && x in parts
    {
      Text.DropEmptyMembers(files, x);
    }
  }

  /** `list_directory_finished`'s decoding as written: `None` where the
      slot raises. The count `int(parts[1])` is evaluated even when there
      is no fourth piece. */
  function DecodeListing(output: string): (r: Option<Listing>)
    ensures r.None? <==> |Text.Split(output, Sep)| < 3 || Numerals.ParseInt(Text.Split(output, Sep)[1]).None?
    ensures r.Some? ==> forall x :: x in r.value.folders ==> x != "" && x in Text.Split(output, Sep)
    ensures r.Some? ==> forall x :: x in r.value.files ==> x != "" && x in Text.Split(output, Sep)
  {
    var parts := Text.Split(output, Sep);
    if |parts| < 3 then None
    else
      match Numerals.ParseInt(parts[1])
      case None => None
      case Some(k) => SliceListingNames(parts, k); Some(SliceListing(parts, k))
  }

  /** `list_directory_finished(output, success)` as written. */
  function ListDirectoryFinished(output: string, success: bool): (r: ListReport)
    ensures r.ListError? <==> !success
    ensures !success ==> r.message == output
    ensures r.Crashed? <==> success && DecodeListing(output).None?
  {
    if !success then ListError(output)
    else
      match DecodeListing(output)
      case None => Crashed
      case Some(l) => Listed(l)
  }

  /** The pieces a joined name list contributes: `'|||'.join([])` is still one (empty) piece. */
  function Segment(names: seq<string>): (r: seq<string>)
    ensures |r| >= 1
  {
    if names == [] then [""] else names
  }

  predicate Transportable(names: seq<string>) {
    forall k :: 0 <= k < |names| ==> names[k] != "" && BarFree(names[k])
  }

  /** The pieces the worker joins, in order. */
  function Pieces(directory: string, folders: seq<string>, files: seq<string>): seq<string> {
    [directory, Numerals.Decimal(|folders|), Numerals.Decimal(|files|)]
    + Segment(Take(folders, ListLimit)) + Segment(Take(files, ListLimit))
  }

  lemma JoinSegment(names: seq<string>)
    ensures Text.Join(Segment(names), Sep) == Text.Join(names, Sep)
  {
  }

  lemma JoinThree(a: string, b: string, c: string)
    ensures Text.Join([a, b, c], Sep) == a + Sep + b + Sep + c
  {
    assert [a, b, c][1..] == [b, c];
    assert [b, c][1..] == [c];
    assert Text.Join([b, c], Sep) == b + Sep + c;
    assert a + Sep + (b + Sep + c) == a + Sep + b + Sep + c;
  }

  lemma PiecesBarFree(directory: string, folders: seq<string>, files: seq<string>)
    requires BarFree(directory) && Transportable(folders) && Transportable(files)
    ensures forall k :: 0 <= k < |Pieces(directory, folders, files)| ==> '|' !in Pieces(directory, folders, files)[k]
  {
    DecimalBarFree(|folders|);
    DecimalBarFree(|files|);
    var x, y := Segment(Take(folders, ListLimit)), Segment(Take(files, ListLimit));
    var parts := Pieces(directory, folders, files);
    forall k | 0 <= k < |parts|
      ensures '|' !in parts[k]
    {
      if k >= 3 + |x| {
        assert parts[k] == y[k - 3 - |x|];
      } else if k >= 3 {
        assert parts[k] == x[k - 3];
      }
    }
  }

  /** The pieces the slot's split finds in a worker's listing. */
  lemma EncodingPieces(directory: string, folders: seq<string>, files: seq<string>)
    requires BarFree(directory) && Transportable(folders) && Transportable(files)
    ensures Text.Split(EncodeListing(directory, folders, files), Sep) == Pieces(directory, folders, files)
  {
    PiecesBarFree(directory, folders, files);
    Text.SplitJoin(Pieces(directory, folders, files), Sep);
  }

  /** Skipping empty pieces of a segment gives back the names it came from. */
  lemma SegmentNames(names: seq<string>)
    requires Transportable(names)
    ensures Text.DropEmpty(Segment(names)) == names
  {
    Text.DropEmptyKeeps(names);
  }

  /** Within bounds, a Python slice is the plain subsequence. */
  lemma PySliceInRange<T>(s: seq<T>, lo: int, hi: int)
    requires 0 <= lo <= hi <= |s|
    ensures PySlice(s, lo, hi) == s[lo..hi]
  {
  }

  /** When the folder count leaves at least one piece, the slot's slices are plain subsequences. */
  lemma SliceListingInRange(parts: seq<string>, k: nat)
    requires |parts| > 3 + k
    ensures SliceListing(parts, k)
         == Listing(parts[0], parts[1], parts[2], Text.DropEmpty(parts[3..3 + k]), Text.DropEmpty(parts[3 + k..]))
  {
    PySliceInRange(parts, 3, 3 + k);
    PySliceInRange(parts, 3 + k, |parts|);
    assert parts[3 + k..|parts|] == parts[3 + k..];
    var f, g := PySlice(parts, 3, 3 + k), PySlice(parts, 3 + k, |parts|);
    assert SliceListing(parts, k) == Listing(parts[0], parts[1], parts[2], Text.DropEmpty(f), Text.DropEmpty(g));
  }

  /** A piece list and its slice at `k` once the first `3 + k` pieces are accounted for. */
  lemma SliceOfPieces(head: seq<string>, x: seq<string>, y: seq<string>, k: nat)
    requires |head| == 3 && |x| >= 1 && |y| >= 1
    requires k == |x| || (k == 0 && x == [""])
    ensures SliceListing(head + x + y, k)
         == Listing(head[0], head[1], head[2],
                    Text.DropEmpty(if k == 0 then [] else x),
                    Text.DropEmpty(if k == 0 then x + y else y))
  {
    var parts := head + x + y;
    HeadAndSegments(head, x, y);
    SliceListingInRange(parts, k);
    if k == 0 {
      assert parts[3..3 + k] == [];
    }
  }

  /** Where the folder and file segments sit in a piece list. */
  lemma HeadAndSegments(head: seq<string>, x: seq<string>, y: seq<string>)
    requires |head| == 3
    ensures (head + x + y)[0] == head[0] && (head + x + y)[1] == head[1] && (head + x + y)[2] == head[2]
    ensures (head + x + y)[3..] == x + y
    ensures (head + x + y)[3..3 + |x|] == x && (head + x + y)[3 + |x|..] == y
  {
    var parts := head + x + y;
    assert parts == head + (x + y);
  }

  /** The slot as written reads a worker's listing as the slicing of its
      pieces at the true folder count. */
  lemma DecodeEncoding(directory: string, folders: seq<string>, files: seq<string>)
    requires BarFree(directory) && Transportable(folders) && Transportable(files)
    ensures DecodeListing(EncodeListing(directory, folders, files))
         == Some(SliceListing(Pieces(directory, folders, files), |folders|))
  {
    EncodingPieces(directory, folders, files);
    Numerals.DecimalRoundTrip(|folders|);
    assert Pieces(directory, folders, files)[1] == Numerals.Decimal(|folders|);
  }

  /** List round trip as written: with at most 20 folders, and names free
      of '|' and not empty, the slot shows the directory, both true
      counts, all folders and the first 20 files. */
  lemma ListingRoundTrip(directory: string, folders: seq<string>, files: seq<string>)
    requires BarFree(directory) && Transportable(folders) && Transportable(files)
    requires |folders| <= ListLimit
    ensures DecodeListing(EncodeListing(directory, folders, files))
         == Some(Listing(directory, Numerals.Decimal(|folders|), Numerals.Decimal(|files|),
                         folders, Take(files, ListLimit)))
  {
    DecodeEncoding(directory, folders, files);
    var x, y := Segment(Take(folders, ListLimit)), Segment(Take(files, ListLimit));
    assert Take(folders, ListLimit) == folders;
    SliceOfPieces([directory, Numerals.Decimal(|folders|), Numerals.Decimal(|files|)], x, y, |folders|);
    SegmentNames(Take(files, ListLimit));
    if folders == [] {
      assert Text.DropEmpty(x + y) == Text.DropEmpty(y);
    } else {
      Text.DropEmptyKeeps(folders);
    }
    assert Text.DropEmpty([]) == [];
  }

  /** When the folder count runs past the last piece, all pieces after the
      third are taken for folders and no file is left. */
  lemma SliceListingPastEnd(parts: seq<string>, k: int)
    requires |parts| > 3 && 3 + k >= |parts|
    ensures SliceListing(parts, k) == Listing(parts[0], parts[1], parts[2], Text.DropEmpty(parts[3..]), [])
  {
    PySliceInRange(parts, 3, |parts|);
    assert PySlice(parts, 3, 3 + k) == parts[3..|parts|] == parts[3..];
  }

  /** The slot's slicing of the pieces of a listing with more than 20 folders. */
  lemma SliceOverflow(head: seq<string>, x: seq<string>, sent: seq<string>, k: nat)
    requires |head| == 3 && |x| == ListLimit && k > ListLimit
    requires Transportable(x) && Transportable(sent)
    ensures SliceListing(head + x + Segment(sent), k)
         == Listing(head[0], head[1], head[2], x + sent[..Swallowed(k, sent)], sent[Swallowed(k, sent)..])
  {
    var parts := head + x + Segment(sent);
    assert parts[0] == head[0] && parts[1] == head[1] && parts[2] == head[2];
    assert parts[3..] == x + Segment(sent);
    if sent == [] {
      OverflowNoFile(parts, x, k);
    } else if 3 + k < |parts| {
      OverflowSomeFilesLeft(parts, x, sent, k);
    } else {
      OverflowAllFilesTaken(parts, x, sent, k);
    }
  }

  lemma OverflowNoFile(parts: seq<string>, x: seq<string>, k: nat)
    requires |parts| == 3 + |x| + 1 && parts[3..] == x + [""] && Transportable(x) && k > |x|
    ensures SliceListing(parts, k) == Listing(parts[0], parts[1], parts[2], x, [])
  {
    SliceListingPastEnd(parts, k);
    DropEmptyLast(x);
  }

  lemma OverflowSomeFilesLeft(parts: seq<string>, x: seq<string>, sent: seq<string>, k: nat)
    requires |parts| >= 3 && |x| == ListLimit && k > ListLimit && sent != [] && parts[3..] == x + sent
    requires 3 + k < |parts| && Transportable(x) && Transportable(sent)
    ensures SliceListing(parts, k)
         == Listing(parts[0], parts[1], parts[2], x + sent[..Swallowed(k, sent)], sent[Swallowed(k, sent)..])
  {
    var lost := Swallowed(k, sent);
    SliceListingInRange(parts, k);
    SliceAcross(parts, x, sent, k);
    TransportableAppend(x, sent[..lost]);
    Text.DropEmptyKeeps(x + sent[..lost]);
    Text.DropEmptyKeeps(sent[lost..]);
  }

  /** Cutting the pieces after the third at `k`, inside the second of two
      segments `x + y`, takes all of `x` and the first `k - |x|` of `y`. */
  lemma SliceAcross(parts: seq<string>, x: seq<string>, y: seq<string>, k: nat)
    requires |parts| >= 3 && parts[3..] == x + y && |x| <= k <= |x| + |y|
    ensures parts[3..3 + k] == x + y[..k - |x|]
    ensures parts[3 + k..] == y[k - |x|..]
  {
    assert parts[3..3 + k] == parts[3..][..k];
    assert parts[3 + k..] == parts[3..][k..];
  }

  lemma TransportableAppend(a: seq<string>, b: seq<string>)
    requires Transportable(a) && Transportable(b)
    ensures Transportable(a + b)
  {
    forall j | 0 <= j < |a + b|
      ensures (a + b)[j] != "" && BarFree((a + b)[j])
    {
      if j >= |a| {
        assert (a + b)[j] == b[j - |a|];
      }
    }
  }

  lemma OverflowAllFilesTaken(parts: seq<string>, x: seq<string>, sent: seq<string>, k: nat)
    requires |parts| >= 3 && |x| == ListLimit && k > ListLimit && sent != [] && parts[3..] == x + sent
    requires 3 + k >= |parts| && |parts| > 3 && Transportable(x) && Transportable(sent)
    ensures SliceListing(parts, k)
         == Listing(parts[0], parts[1], parts[2], x + sent[..Swallowed(k, sent)], sent[Swallowed(k, sent)..])
  {
    var lost := Swallowed(k, sent);
    SliceListingPastEnd(parts, k);
    assert lost == |sent|;
    assert sent[..lost] == sent && sent[lost..] == [];
    assert Transportable(x + sent);
    Text.DropEmptyKeeps(x + sent);
  }

  /** How many of the sent file names the as-written slot takes for folders. */
  function Swallowed(folderCount: nat, sent: seq<string>): (n: nat)
    requires folderCount >= ListLimit
    ensures n <= |sent|
  {
    if folderCount - ListLimit < |sent| then folderCount - ListLimit else |sent|
  }

  /** As written, more than 20 folders make the slot take file names for
      folder names: the count says `|folders|` pieces but only 20 were
      sent, so the first `|folders| - 20` file names land in the folder
      list and are missing from the file list. */
  lemma ListingSwallowsFiles(directory: string, folders: seq<string>, files: seq<string>)
    requires BarFree(directory) && Transportable(folders) && Transportable(files)
    requires |folders| > ListLimit
    ensures DecodeListing(EncodeListing(directory, folders, files))
         == Some(Listing(directory, Numerals.Decimal(|folders|), Numerals.Decimal(|files|),
                         folders[..ListLimit] + Take(files, ListLimit)[..Swallowed(|folders|, Take(files, ListLimit))],
                         Take(files, ListLimit)[Swallowed(|folders|, Take(files, ListLimit))..]))
  {
    DecodeEncoding(directory, folders, files);
    var head := [directory, Numerals.Decimal(|folders|), Numerals.Decimal(|files|)];
    assert Pieces(directory, folders, files) == head + folders[..ListLimit] + Segment(Take(files, ListLimit));
    SliceOverflow(head, folders[..ListLimit], Take(files, ListLimit), |folders|);
  }

  lemma DropEmptyLast(x: seq<string>)
    requires Transportable(x)
    ensures Text.DropEmpty(x + [""]) == x
  {
    if x == [] {
      assert Text.DropEmpty([""]) == Text.DropEmpty([]);
    } else {
      assert (x + [""])[1..] == x[1..] + [""];
      DropEmptyLast(x[1..]);
      assert x == [x[0]] + x[1..];
    }
  }

  /** The smallest case of the discrepancy: 21 folders `d` and one file `f`
      show 21 folders, the last of them `f`, and no file. */
  lemma TwentyOneFolders()
    ensures DecodeListing(EncodeListing("x", seq(21, _ => "d"), ["f"]))
         == Some(Listing("x", "21", "1", seq(20, _ => "d") + ["f"], []))
  {
    var folders := seq(21, _ => "d");
    ListingSwallowsFiles("x", folders, ["f"]);
    assert Numerals.Decimal(21) == "21";
    assert Numerals.Decimal(1) == "1";
    assert folders[..ListLimit] == seq(20, _ => "d");
  }

  /** The decoding evidently intended: the folder slice is as long as the
      folder names actually sent, at most 20. */
  function DecodeListingCapped(output: string): (r: Option<Listing>)
    ensures r.None? <==> |Text.Split(output, Sep)| < 3 || Numerals.ParseInt(Text.Split(output, Sep)[1]).None?
    ensures r.Some? ==> forall x :: x in r.value.folders ==> x != "" && x in Text.Split(output, Sep)
    ensures r.Some? ==> forall x :: x in r.value.files ==> x != "" && x in Text.Split(output, Sep)
    ensures r.Some? && Numerals.ParseInt(Text.Split(output, Sep)[1]).value >= 0 ==> |r.value.folders| <= ListLimit
  {
    var parts := Text.Split(output, Sep);
    if |parts| < 3 then None
    else
      match Numerals.ParseInt(parts[1])
      case None => None
      case Some(k) =>
        var m := if k > ListLimit then ListLimit else k;
        SliceListingNames(parts, m);
        Some(SliceListing(parts, m))
  }

  /** `list_directory_finished` with the corrected decoding. */
  function ListDirectoryFinishedCapped(output: string, success: bool): (r: ListReport)
    ensures r.ListError? <==> !success
    ensures !success ==> r.message == output
    ensures r.Crashed? <==> success && DecodeListingCapped(output).None?
  {
    if !success then ListError(output)
    else
      match DecodeListingCapped(output)
      case None => Crashed
      case Some(l) => Listed(l)
  }

  /** With the corrected decoding every listing round-trips: the true
      counts, and the first 20 folders and the first 20 files, each in
      its own list. An empty folder or file list comes back empty. */
  lemma ListingCappedRoundTrip(directory: string, folders: seq<string>, files: seq<string>)
    requires BarFree(directory) && Transportable(folders) && Transportable(files)
    ensures DecodeListingCapped(EncodeListing(directory, folders, files))
         == Some(Listing(directory, Numerals.Decimal(|folders|), Numerals.Decimal(|files|),
                         Take(folders, ListLimit), Take(files, ListLimit)))
  {
    DecodeCappedEncoding(directory, folders, files);
    var sentFolders := Take(folders, ListLimit);
    var x, y := Segment(sentFolders), Segment(Take(files, ListLimit));
    var k := if |folders| > ListLimit then ListLimit else |folders|;
    assert k == |sentFolders|;
    SliceOfPieces([directory, Numerals.Decimal(|folders|), Numerals.Decimal(|files|)], x, y, k);
    SegmentNames(Take(files, ListLimit));
    if folders == [] {
      assert Text.DropEmpty(x + y) == Text.DropEmpty(y);
    } else {
      Text.DropEmptyKeeps(sentFolders);
    }
    assert Text.DropEmpty([]) == [];
  }

  /** The corrected slot reads a worker's listing as the slicing of its
      pieces at the number of folder names sent. */
  lemma DecodeCappedEncoding(directory: string, folders: seq<string>, files: seq<string>)
    requires BarFree(directory) && Transportable(folders) && Transportable(files)
    ensures DecodeListingCapped(EncodeListing(directory, folders, files))
         == Some(SliceListing(Pieces(directory, folders, files), if |folders| > ListLimit then ListLimit else |folders|))
  {
    EncodingPieces(directory, folders, files);
    Numerals.DecimalRoundTrip(|folders|);
    assert Pieces(directory, folders, files)[1] == Numerals.Decimal(|folders|);
  }

  // ------------------------------------ from the worker's listing to the slot

  /** A selection of transportable names is transportable. */
  lemma SelectTransportable(items: seq<string>, kind: map<string, Entries.Kind>, k: Entries.Kind)
    requires Transportable(items)
    ensures Transportable(Entries.Select(items, kind, k))
  {
    var sel := Entries.Select(items, kind, k);
    forall j | 0 <= j < |sel|
      ensures sel[j] != "" && BarFree(sel[j])
    {
      Entries.SelectExactly(items, kind, k, sel[j]);
      var i :| 0 <= i < |items| && items[i] == sel[j];
    }
  }

  /** `list_directory` followed by `list_directory_finished`, as written: for
      a directory with at most 20 folders whose name and entries are
      non-empty and free of '|', the slot lists the directory, both true
      counts, every folder in listing order and the first 20 files. */
  lemma ListDirectoryRoundTrip(directory: string, items: seq<string>, kind: map<string, Entries.Kind>)
    requires BarFree(directory) && Transportable(items)
    requires |Entries.Folders(items, kind)| <= ListLimit
    ensures ListDirectoryFinished(EncodeListing(directory, Entries.Folders(items, kind), Entries.Files(items, kind)), true)
         == Listed(Listing(directory,
                           Numerals.Decimal(|Entries.Folders(items, kind)|), Numerals.Decimal(|Entries.Files(items, kind)|),
                           Entries.Folders(items, kind), Take(Entries.Files(items, kind), ListLimit)))
  {
    SelectTransportable(items, kind, Entries.Directory);
    SelectTransportable(items, kind, Entries.RegularFile);
    ListingRoundTrip(directory, Entries.Folders(items, kind), Entries.Files(items, kind));
  }

  /** The same with the corrected slot: any number of folders comes back as
      the true counts and the first 20 folders and files. */
  lemma ListDirectoryCappedRoundTrip(directory: string, items: seq<string>, kind: map<string, Entries.Kind>)
    requires BarFree(directory) && Transportable(items)
    ensures ListDirectoryFinishedCapped(EncodeListing(directory, Entries.Folders(items, kind), Entries.Files(items, kind)), true)
         == Listed(Listing(directory,
                           Numerals.Decimal(|Entries.Folders(items, kind)|), Numerals.Decimal(|Entries.Files(items, kind)|),
                           Take(Entries.Folders(items, kind), ListLimit), Take(Entries.Files(items, kind), ListLimit)))
  {
    SelectTransportable(items, kind, Entries.Directory);
    SelectTransportable(items, kind, Entries.RegularFile);
    ListingCappedRoundTrip(directory, Entries.Folders(items, kind), Entries.Files(items, kind));
  }
}
