/** Classifying the names of a directory listing as folders and files, as
    `os.path.isdir` / `os.path.isfile` on `join(directory, name)` do. The
    file system is abstracted as a map from name to kind; a name the map
    lacks is neither (it vanished, or is a broken link). */
module Entries {

  datatype Kind = Directory | RegularFile | Other

  function KindOf(kind: map<string, Kind>, name: string): Kind {
    if name in kind then kind[name] else Other
  }

  /** `[f for f in items if <f has kind k>]`. */
  function Select(items: seq<string>, kind: map<string, Kind>, k: Kind): seq<string> {
    if items == [] then []
    else (if KindOf(kind, items[0]) == k then [items[0]] else []) + Select(items[1..], kind, k)
  }

  /** The folders of the listing, in listing order. */
  function Folders(items: seq<string>, kind: map<string, Kind>): seq<string> {
    Select(items, kind, Directory)
  }

  /** The files of the listing, in listing order. */
  function Files(items: seq<string>, kind: map<string, Kind>): seq<string> {
    Select(items, kind, RegularFile)
  }

  /** The selection holds exactly the listed names of kind `k`. */
  lemma {:induction false} SelectExactly(items: seq<string>, kind: map<string, Kind>, k: Kind, x: string)
    ensures x in Select(items, kind, k) <==> x in items && KindOf(kind, x) == k
  {
    if items != [] {
      SelectExactly(items[1..], kind, k, x);
      assert items == [items[0]] + items[1..];
    }
  }

  /** Selecting keeps listing order: it distributes over concatenation. */
  lemma {:induction false} SelectAppend(a: seq<string>, b: seq<string>, kind: map<string, Kind>, k: Kind)
    ensures Select(a + b, kind, k) == Select(a, kind, k) + Select(b, kind, k)
  {
    if a == [] {
      assert a + b == b;
    } else {
      assert (a + b)[1..] == a[1..] + b;
      SelectAppend(a[1..], b, kind, k);
    }
  }

  /** Each listed name goes to at most one of the two lists. */
  lemma {:induction false} PartitionSize(items: seq<string>, kind: map<string, Kind>)
    ensures |Folders(items, kind)| + |Files(items, kind)| <= |items|
  {
    if items != [] {
      PartitionSize(items[1..], kind);
    }
  }

  /** No name is both a folder and a file. */
  lemma PartitionDisjoint(items: seq<string>, kind: map<string, Kind>, x: string)
    ensures !(x in Folders(items, kind) && x in Files(items, kind))
  {
    SelectExactly(items, kind, Directory, x);
    SelectExactly(items, kind, RegularFile, x);
  }
}
