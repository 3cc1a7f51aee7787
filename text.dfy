/** Python's string operations the core relies on: `str.find`, `str.split`
    with a separator, `sep.join`, `str.lower` (ASCII letters only) and
    `str.endswith`. */
module Text {
  import opened Wrappers

  /** `sep` occurs in `s` starting at index `i`. */
  predicate MatchAt(s: string, sep: string, i: nat) {
    i + |sep| <= |s| && s[i..i + |sep|] == sep
  }

  /** `s.find(sep)`: the first index at which `sep` occurs, or `None` (Python's -1). */
  function Find(s: string, sep: string): (r: Option<nat>)
    requires sep != []
    ensures r.Some? ==> MatchAt(s, sep, r.value)
    ensures r.Some? ==> forall j :: 0 <= j < r.value ==> !MatchAt(s, sep, j)
    ensures r.None? ==> forall j :: 0 <= j ==> !MatchAt(s, sep, j)
    decreases |s|
  {
    if |s| < |sep| then None
    else if s[..|sep|] == sep then Some(0)
    else
      MatchAtShift(s, sep);
      match Find(s[1..], sep)
      case None => None
      case Some(i) => Some(i + 1)
  }

  /** A match past the first character of `s` is a match in `s[1..]`, one position earlier. */
  lemma MatchAtShift(s: string, sep: string)
    requires |s| >= 1
    ensures forall j :: 1 <= j ==> (MatchAt(s, sep, j) <==> MatchAt(s[1..], sep, j - 1))
  {
    forall j | 1 <= j
      ensures MatchAt(s, sep, j) <==> MatchAt(s[1..], sep, j - 1)
    {
      if j + |sep| <= |s| {
        assert s[1..][j - 1..j - 1 + |sep|] == s[j..j + |sep|];
      }
    }
  }

  predicate Contains(s: string, sep: string)
    requires sep != []
  {
    Find(s, sep).Some?
  }

  /** `s.split(sep)`: cut at every occurrence of `sep`, scanning left to right
      and resuming after each cut, so that occurrences never overlap. */
  function Split(s: string, sep: string): (parts: seq<string>)
    requires sep != []
    ensures |parts| >= 1
    decreases |s|
  {
    match Find(s, sep)
    case None => [s]
    case Some(i) => [s[..i]] + Split(s[i + |sep|..], sep)
  }

  /** `sep.join(parts)`. */
  function Join(parts: seq<string>, sep: string): string {
    if |parts| == 0 then ""
    else if |parts| == 1 then parts[0]
    else parts[0] + sep + Join(parts[1..], sep)
  }

  /** Joining the pieces of a split with the same separator gives back the string. */
  lemma {:induction false} JoinSplit(s: string, sep: string)
    requires sep != []
    ensures Join(Split(s, sep), sep) == s
    decreases |s|
  {
    match Find(s, sep)
    case None =>
    case Some(i) =>
      var rest := s[i + |sep|..];
      SplitFirstPiece(s, sep, i);
      JoinSplit(rest, sep);
      JoinCons(s[..i], Split(rest, sep), sep);
      assert s == s[..i] + sep + rest by {
        assert MatchAt(s, sep, i);
        assert s == s[..i] + s[i..i + |sep|] + rest;
      }
  }

  /** Joining a piece in front of a non-empty list adds it and one separator. */
  lemma JoinCons(a: string, tail: seq<string>, sep: string)
    requires |tail| >= 1
    ensures Join([a] + tail, sep) == a + sep + Join(tail, sep)
  {
    assert ([a] + tail)[1..] == tail;
  }

  /** No piece of a split holds the separator, and every cut is made at the
      first occurrence: in a piece followed by the separator, the first
      occurrence is the one right after the piece. */
  lemma SplitPiecesFree(s: string, sep: string)
    requires sep != []
    ensures forall k :: 0 <= k < |Split(s, sep)| ==> !Contains(Split(s, sep)[k], sep)
    ensures forall k :: 0 <= k < |Split(s, sep)| - 1 ==>
              Find(Split(s, sep)[k] + sep, sep) == Some(|Split(s, sep)[k]|)
  {
    forall k | 0 <= k < |Split(s, sep)|
      ensures !Contains(Split(s, sep)[k], sep)
      ensures k < |Split(s, sep)| - 1 ==> Find(Split(s, sep)[k] + sep, sep) == Some(|Split(s, sep)[k]|)
    {
      SplitPieceFree(s, sep, k);
    }
  }

  /** Piece `k` of a split holds no separator, and unless it is the last
      piece the separator that follows it is the first one after it. */
  lemma {:induction false} SplitPieceFree(s: string, sep: string, k: nat)
    requires sep != [] && k < |Split(s, sep)|
    ensures !Contains(Split(s, sep)[k], sep)
    ensures k < |Split(s, sep)| - 1 ==> Find(Split(s, sep)[k] + sep, sep) == Some(|Split(s, sep)[k]|)
    decreases |s|
  {
    match Find(s, sep)
    case None =>
    case Some(i) =>
      SplitFirstPiece(s, sep, i);
      FindPrefix(s, sep, i);
      FirstCut(s, sep, i);
      if k > 0 {
        var rest := s[i + |sep|..];
        SplitPieceFree(rest, sep, k - 1);
        assert Split(s, sep)[k] == Split(rest, sep)[k - 1];
      }
  }

  /** Where the first occurrence is at `i`, the split's first piece is `s[..i]`. */
  lemma SplitFirstPiece(s: string, sep: string, i: nat)
    requires sep != [] && Find(s, sep) == Some(i)
    ensures Split(s, sep) == [s[..i]] + Split(s[i + |sep|..], sep)
  {
  }

  /** The separator after what precedes the first occurrence is its first one. */
  lemma FirstCut(s: string, sep: string, i: nat)
    requires sep != [] && Find(s, sep) == Some(i)
    ensures Find(s[..i] + sep, sep) == Some(i)
  {
    var t := s[..i] + sep;
    assert t == s[..i + |sep|] by {
      assert MatchAt(s, sep, i);
      assert s[..i + |sep|] == s[..i] + s[i..i + |sep|];
    }
    FindInPrefix(s, sep, i + |sep|);
  }

  /** The first occurrence is still the first in any prefix that contains it. */
  lemma FindInPrefix(s: string, sep: string, m: nat)
    requires sep != [] && Find(s, sep).Some? && Find(s, sep).value + |sep| <= m <= |s|
    ensures Find(s[..m], sep) == Find(s, sep)
  {
    var i := Find(s, sep).value;
    var t := s[..m];
    MatchAtPrefix(s, sep, m, i);
    forall j | 0 <= j < i
      ensures !MatchAt(t, sep, j)
    {
      MatchAtPrefix(s, sep, m, j);
    }
    FindAt(t, sep, i);
  }

  /** A match that ends within a prefix is a match in the prefix, and conversely. */
  lemma MatchAtPrefix(s: string, sep: string, m: nat, j: nat)
    requires j + |sep| <= m <= |s|
    ensures MatchAt(s[..m], sep, j) <==> MatchAt(s, sep, j)
  {
    assert s[..m][j..j + |sep|] == s[j..j + |sep|];
  }

  /** `Find` is the first match: a match at `i` with none before it is what `Find` returns. */
  lemma FindAt(t: string, sep: string, i: nat)
    requires sep != [] && MatchAt(t, sep, i)
    requires forall j :: 0 <= j < i ==> !MatchAt(t, sep, j)
    ensures Find(t, sep) == Some(i)
  {
    var r := Find(t, sep);
    assert r.Some?;
    assert !(r.value < i);
    assert !(r.value > i);
  }

  /** The first piece of a split is a prefix of the string. */
  lemma SplitHeadPrefix(s: string, sep: string)
    requires sep != []
    ensures |Split(s, sep)[0]| <= |s| && Split(s, sep)[0] == s[..|Split(s, sep)[0]|]
  {
  }

  /** A prefix of a string without the separator has none either. */
  lemma PrefixFree(s: string, sep: string, m: nat)
    requires sep != [] && !Contains(s, sep) && m <= |s|
    ensures !Contains(s[..m], sep)
  {
    forall j | 0 <= j
      ensures !MatchAt(s[..m], sep, j)
    {
      if MatchAt(s[..m], sep, j) {
        assert s[..m][j..j + |sep|] == s[j..j + |sep|];
        assert MatchAt(s, sep, j);
      }
    }
  }

  /** A prefix that ends before the first occurrence holds no occurrence. */
  lemma FindPrefix(s: string, sep: string, i: nat)
    requires sep != [] && Find(s, sep) == Some(i)
    ensures !Contains(s[..i], sep)
  {
    forall j | 0 <= j
      ensures !MatchAt(s[..i], sep, j)
    {
      if MatchAt(s[..i], sep, j) {
        assert s[..i][j..j + |sep|] == s[j..j + |sep|];
        assert MatchAt(s, sep, j);
      }
    }
  }

  /** A string that avoids the separator's first character has no occurrence of it. */
  lemma FindAbsent(a: string, sep: string)
    requires sep != [] && sep[0] !in a
    ensures Find(a, sep) == None
  {
    forall j | 0 <= j
      ensures !MatchAt(a, sep, j)
    {
    }
  }

  /** The first occurrence in `a + sep + rest` is the one right after `a`,
      when `a` avoids the separator's first character. */
  lemma FindAfter(a: string, sep: string, rest: string)
    requires sep != [] && sep[0] !in a
    ensures Find(a + sep + rest, sep) == Some(|a|)
  {
    var s := a + sep + rest;
    assert s[|a|..|a| + |sep|] == sep;
    forall j | 0 <= j < |a|
      ensures !MatchAt(s, sep, j)
    {
    }
    FindAt(s, sep, |a|);
  }

  /** Splitting `a + sep + rest` cuts off `a` first, when `a` avoids the separator's first character. */
  lemma SplitCons(a: string, sep: string, rest: string)
    requires sep != [] && sep[0] !in a
    ensures Split(a + sep + rest, sep) == [a] + Split(rest, sep)
  {
    var s := a + sep + rest;
    FindAfter(a, sep, rest);
    SplitFirstPiece(s, sep, |a|);
    assert s[..|a|] == a;
    assert s[|a| + |sep|..] == rest;
  }

  /** Splitting what `Join` built gives back the pieces, provided no piece
      holds the separator's first character. */
  lemma {:induction false} SplitJoin(parts: seq<string>, sep: string)
    requires sep != [] && |parts| >= 1
    requires forall k :: 0 <= k < |parts| ==> sep[0] !in parts[k]
    ensures Split(Join(parts, sep), sep) == parts
    decreases |parts|
  {
    if |parts| == 1 {
      FindAbsent(parts[0], sep);
    } else {
      var tail := parts[1..];
      var rest := Join(tail, sep);
      var s := parts[0] + sep + rest;
      assert Join(parts, sep) == s;
      SplitCons(parts[0], sep, rest);
      forall k | 0 <= k < |tail|
        ensures sep[0] !in tail[k]
      {
        assert tail[k] == parts[k + 1];
      }
      SplitJoin(tail, sep);
      assert parts == [parts[0]] + tail;
    }
  }

  /** Joining two non-empty lists of pieces is joining the two joins. */
  lemma {:induction false} JoinAppend(a: seq<string>, b: seq<string>, sep: string)
    requires |a| >= 1 && |b| >= 1
    ensures Join(a + b, sep) == Join(a, sep) + sep + Join(b, sep)
    decreases |a|
  {
    if |a| == 1 {
      assert (a + b)[1..] == b;
    } else {
      assert (a + b)[1..] == a[1..] + b;
      JoinAppend(a[1..], b, sep);
    }
  }

  function LowerChar(c: char): char {
    if 'A' <= c <= 'Z' then (c as int - 'A' as int + 'a' as int) as char else c
  }

  /** `s.lower()` restricted to ASCII letters. */
  function Lower(s: string): (r: string)
    ensures |r| == |s|
    ensures forall i :: 0 <= i < |s| ==> r[i] == LowerChar(s[i])
  {
    if s == [] then [] else [LowerChar(s[0])] + Lower(s[1..])
  }

  /** `s.endswith(suffix)`. */
  predicate EndsWith(s: string, suffix: string) {
    |suffix| <= |s| && s[|s| - |suffix|..] == suffix
  }

  /** The pieces that are not the empty string, in order (`[p for p in ps if p]`). */
  function DropEmpty(ps: seq<string>): (r: seq<string>)
    ensures forall k :: 0 <= k < |r| ==> r[k] != ""
    ensures |r| <= |ps|
  {
    if ps == [] then []
    else if ps[0] == "" then DropEmpty(ps[1..])
    else [ps[0]] + DropEmpty(ps[1..])
  }

  /** Dropping empties keeps exactly the non-empty pieces. */
  lemma {:induction false} DropEmptyMembers(ps: seq<string>, x: string)
    ensures x in DropEmpty(ps) <==> x in ps && x != ""
  {
    if ps != [] {
      DropEmptyMembers(ps[1..], x);
      assert ps == [ps[0]] + ps[1..];
    }
  }

  /** Dropping empties distributes over concatenation, so the kept pieces stay in order. */
  lemma {:induction false} DropEmptyAppend(a: seq<string>, b: seq<string>)
    ensures DropEmpty(a + b) == DropEmpty(a) + DropEmpty(b)
    decreases |a|
  {
    if a == [] {
      assert a + b == b;
    } else {
      assert (a + b)[1..] == a[1..] + b;
      DropEmptyAppend(a[1..], b);
    }
  }

  /** Dropping empties keeps a list with no empty piece as it is. */
  lemma {:induction false} DropEmptyKeeps(ps: seq<string>)
    requires forall k :: 0 <= k < |ps| ==> ps[k] != ""
    ensures DropEmpty(ps) == ps
  {
    if ps != [] {
      DropEmptyKeeps(ps[1..]);
    }
  }
}
