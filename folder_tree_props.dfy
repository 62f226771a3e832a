/**
 * What the folder-tree renderer promises: its lines are a pre-order walk of
 * the folders below the root, each line's indentation is its folder's depth,
 * its line count is the number of folders plus failed listings, each folder's
 * line is immediately followed by its own subtree, siblings come in sorted
 * order, and only the "├── " connector is ever produced.
 */
module FolderTreeProps {
  import opened FolderTree

  // ---------------------------------------------------------------------
  // A reference pre-order walk, independent of the text of the lines
  // ---------------------------------------------------------------------

  /** One step of a pre-order walk below the root, with relative paths. */
  datatype Visit =
    | Entered(parents: seq<string>, name: string)   // the folder at parents + [name]
    | Failed(path: seq<string>, reason: string)     // listing the folder at path failed

  function Nest(n: string, v: Visit): Visit
  {
    match v
    case Entered(ps, name) => Entered([n] + ps, name)
    case Failed(path, reason) => Failed([n] + path, reason)
  }

  function NestAll(n: string, vs: seq<Visit>): seq<Visit>
  {
    seq(|vs|, i requires 0 <= i < |vs| => Nest(n, vs[i]))
  }

  /** The pre-order walk of the folders below a directory with this listing. */
  function PreOrder(l: Listing): seq<Visit>
    decreases Size(l), 0
  {
    match l
    case ListFailed(reason) => [Failed([], reason)]
    case Listed(es) =>
      SortSize(es);
      PreOrderEntries(Sort(es))
  }

  function PreOrderEntries(es: seq<Entry>): seq<Visit>
    decreases EntriesSize(es), 1
  {
    if es == [] then [] else PreOrderEntry(es[0]) + PreOrderEntries(es[1..])
  }

  /** A folder is visited before everything below it. */
  function PreOrderEntry(e: Entry): seq<Visit>
    decreases EntrySize(e), 0
  {
    match e
    case File(_) => []
    case Folder(n, l) => [Entered([], n)] + NestAll(n, PreOrder(l))
  }

  /** k copies of the continuation marker. */
  function Indent(k: nat): string
  {
    if k == 0 then "" else Bar + Indent(k - 1)
  }

  /** How many continuation markers precede the connector of a visit's line. */
  function Depth(v: Visit): nat
  {
    match v
    case Entered(ps, _) => |ps|
    case Failed(path, _) => |path|
  }

  /** The text after the connector. */
  function Label(v: Visit): string
  {
    match v
    case Entered(_, name) => name + "/"
    case Failed(_, reason) => "ERROR: " + reason
  }

  /** The line of a visit: a folder at depth d (children of the root at depth 1) has d - 1 markers. */
  function Line(v: Visit): string
  {
    Indent(Depth(v)) + (Tee + Label(v))
  }

  function Lines(vs: seq<Visit>, prefix: string): seq<string>
  {
    seq(|vs|, i requires 0 <= i < |vs| => prefix + Line(vs[i]))
  }

  lemma LinesAppend(a: seq<Visit>, b: seq<Visit>, prefix: string)
    ensures Lines(a + b, prefix) == Lines(a, prefix) + Lines(b, prefix)
  {
  }

  lemma LineNest(n: string, v: Visit, prefix: string)
    ensures prefix + Line(Nest(n, v)) == (prefix + Bar) + Line(v)
  {
    var k := Depth(v);
    assert Depth(Nest(n, v)) == k + 1;
    assert Label(Nest(n, v)) == Label(v);
    assert Indent(k + 1) == Bar + Indent(k);
    Regroup(prefix, Bar, Indent(k), Tee + Label(v));
  }

  lemma Regroup3(a: string, b: string, c: string, d: string)
    ensures a + (b + (c + d)) == ((a + b) + c) + d
  {
    assert |a + (b + (c + d))| == |((a + b) + c) + d|;
    forall i | 0 <= i < |a| + |b| + |c| + |d|
      ensures (a + (b + (c + d)))[i] == (((a + b) + c) + d)[i]
    {
    }
  }

  lemma Regroup(a: string, b: string, c: string, d: string)
    ensures a + ((b + c) + d) == (a + b) + (c + d)
  {
    assert |a + ((b + c) + d)| == |(a + b) + (c + d)|;
    forall i | 0 <= i < |a| + |b| + |c| + |d|
      ensures (a + ((b + c) + d))[i] == ((a + b) + (c + d))[i]
    {
    }
  }

  lemma LinesNest(n: string, vs: seq<Visit>, prefix: string)
    ensures Lines(NestAll(n, vs), prefix) == Lines(vs, prefix + Bar)
  {
    forall i | 0 <= i < |vs|
      ensures Lines(NestAll(n, vs), prefix)[i] == Lines(vs, prefix + Bar)[i]
    {
      LineNest(n, vs[i], prefix);
    }
  }

  /**
   * The renderer's output is exactly the pre-order walk, one line per visit:
   * the caller's prefix, one "│   " per level below the first, the connector
   * "├── ", and the folder's name with "/" or the listing's ERROR text.
   */
  lemma {:induction false} RenderIsPreOrder(l: Listing, prefix: string)
    ensures Render(l, prefix) == Lines(PreOrder(l), prefix)
    decreases Size(l), 0
  {
    match l
    case ListFailed(reason) =>
      assert Line(Failed([], reason)) == Tee + ("ERROR: " + reason);
      assert prefix + Tee + "ERROR: " + reason == prefix + (Tee + ("ERROR: " + reason));
    case Listed(es) =>
      SortSize(es);
      EntriesArePreOrder(Sort(es), prefix);
  }

  lemma {:induction false} EntriesArePreOrder(es: seq<Entry>, prefix: string)
    ensures RenderEntries(es, prefix) == Lines(PreOrderEntries(es), prefix)
    decreases EntriesSize(es), 1
  {
    if es != [] {
      EntryIsPreOrder(es[0], prefix);
      EntriesArePreOrder(es[1..], prefix);
      LinesAppend(PreOrderEntry(es[0]), PreOrderEntries(es[1..]), prefix);
    }
  }

  lemma {:induction false} EntryIsPreOrder(e: Entry, prefix: string)
    ensures RenderEntry(e, prefix) == Lines(PreOrderEntry(e), prefix)
    decreases EntrySize(e), 0
  {
    match e
    case File(_) =>
    case Folder(n, l) =>
      RenderIsPreOrder(l, prefix + Bar);
      LinesNest(n, PreOrder(l), prefix);
      LinesAppend([Entered([], n)], NestAll(n, PreOrder(l)), prefix);
      assert Line(Entered([], n)) == Tee + (n + "/");
      assert prefix + Tee + n + "/" == prefix + (Tee + (n + "/"));
      assert Lines([Entered([], n)], prefix) == [prefix + Tee + n + "/"];
  }

  // ---------------------------------------------------------------------
  // Line count
  // ---------------------------------------------------------------------

  /** The number of folders below a directory (its proper descendant directories). */
  function FolderCount(l: Listing): nat
    decreases l
  {
    match l
    case ListFailed(_) => 0
    case Listed(es) => EntriesFolderCount(es)
  }

  function EntriesFolderCount(es: seq<Entry>): nat
    decreases es
  {
    if es == [] then 0 else EntryFolderCount(es[0]) + EntriesFolderCount(es[1..])
  }

  function EntryFolderCount(e: Entry): nat
    decreases e
  {
    match e
    case File(_) => 0
    case Folder(_, l) => 1 + FolderCount(l)
  }

  /** The number of directories at or below this one whose listing failed. */
  function FailureCount(l: Listing): nat
    decreases l
  {
    match l
    case ListFailed(_) => 1
    case Listed(es) => EntriesFailureCount(es)
  }

  function EntriesFailureCount(es: seq<Entry>): nat
    decreases es
  {
    if es == [] then 0 else EntryFailureCount(es[0]) + EntriesFailureCount(es[1..])
  }

  function EntryFailureCount(e: Entry): nat
    decreases e
  {
    match e
    case File(_) => 0
    case Folder(_, l) => FailureCount(l)
  }

  function SumOf(s: seq<Entry>, f: Entry -> nat): nat
  {
    if s == [] then 0 else f(s[0]) + SumOf(s[1..], f)
  }

  lemma {:induction false} SumOfInsert(x: Entry, s: seq<Entry>, f: Entry -> nat)
    requires SortedByName(s)
    ensures SumOf(Insert(x, s), f) == f(x) + SumOf(s, f)
  {
    if s != [] && !NameLe(x.name, s[0].name) {
      SumOfInsert(x, s[1..], f);
      assert ([s[0]] + Insert(x, s[1..]))[1..] == Insert(x, s[1..]);
    } else if s != [] {
      assert ([x] + s)[1..] == s;
    }
  }

  /** Sorting a listing does not change any per-entry total. */
  lemma {:induction false} SumOfSort(s: seq<Entry>, f: Entry -> nat)
    ensures SumOf(Sort(s), f) == SumOf(s, f)
  {
    if s != [] {
      SumOfSort(s[1..], f);
      SumOfInsert(s[0], Sort(s[1..]), f);
    }
  }

  lemma {:induction false} FolderCountIsSum(s: seq<Entry>)
    ensures EntriesFolderCount(s) == SumOf(s, EntryFolderCount)
    ensures EntriesFailureCount(s) == SumOf(s, EntryFailureCount)
  {
    if s != [] {
      FolderCountIsSum(s[1..]);
    }
  }

  /**
   * The renderer emits one line per folder below the root and one per failed
   * listing; files add nothing.
   */
  lemma {:induction false} RenderLength(l: Listing, prefix: string)
    ensures |Render(l, prefix)| == FolderCount(l) + FailureCount(l)
    decreases Size(l), 0
  {
    match l
    case ListFailed(_) =>
    case Listed(es) =>
      SortSize(es);
      EntriesLength(Sort(es), prefix);
      FolderCountIsSum(es);
      FolderCountIsSum(Sort(es));
      SumOfSort(es, EntryFolderCount);
      SumOfSort(es, EntryFailureCount);
  }

  lemma {:induction false} EntriesLength(es: seq<Entry>, prefix: string)
    ensures |RenderEntries(es, prefix)| == EntriesFolderCount(es) + EntriesFailureCount(es)
    decreases EntriesSize(es), 1
  {
    if es != [] {
      EntriesLength(es[1..], prefix);
      match es[0]
      case File(_) =>
      case Folder(_, l) =>
        assert Size(l) < EntrySize(es[0]);
        RenderLength(l, prefix + Bar);
    }
  }

  /** When every listing succeeds, the line count is the number of descendant folders. */
  lemma CountWithoutFailures(l: Listing, prefix: string)
    requires FailureCount(l) == 0
    ensures |Render(l, prefix)| == FolderCount(l)
  {
    RenderLength(l, prefix);
  }

  /** A directory holding no folders, only files or nothing, renders as no lines. */
  lemma {:induction false} NoFoldersNoLines(es: seq<Entry>, prefix: string)
    requires forall e :: e in es ==> e.File?
    ensures Render(Listed(es), prefix) == []
  {
    var s := Sort(es);
    forall e | e in s ensures e.File? {
      assert e in multiset(s);
    }
    OnlyFilesNoLines(s, prefix);
  }

  lemma {:induction false} OnlyFilesNoLines(s: seq<Entry>, prefix: string)
    requires forall e :: e in s ==> e.File?
    ensures RenderEntries(s, prefix) == []
  {
    if s != [] {
      assert s[0] in s;
      OnlyFilesNoLines(s[1..], prefix);
    }
  }

  // ---------------------------------------------------------------------
  // Each folder's line is followed by its own subtree
  // ---------------------------------------------------------------------

  /** lines holds header at index i and, right after it, exactly the lines sub. */
  predicate SplicedAt(lines: seq<string>, i: int, header: string, sub: seq<string>)
  {
    0 <= i && i + 1 + |sub| <= |lines| && lines[i] == header && lines[i + 1..i + 1 + |sub|] == sub
  }

  /**
   * Every folder of a listing gets its line, immediately followed by exactly
   * the rendering of its own contents one level deeper, whatever happens to
   * its siblings.
   */
  lemma SubtreeSpliced(es: seq<Entry>, x: Entry, prefix: string)
    requires x in es && x.Folder?
    ensures exists i :: SplicedAt(Render(Listed(es), prefix), i, prefix + Tee + x.name + "/",
                                  Render(x.listing, prefix + Bar))
  {
    assert x in multiset(es);
    assert x in Sort(es);
    assert Render(Listed(es), prefix) == RenderEntries(Sort(es), prefix);
    EntriesSpliced(Sort(es), x, prefix);
  }

  lemma {:induction false} EntriesSpliced(s: seq<Entry>, x: Entry, prefix: string)
    requires x in s && x.Folder?
    ensures exists i :: SplicedAt(RenderEntries(s, prefix), i, prefix + Tee + x.name + "/",
                                  Render(x.listing, prefix + Bar))
  {
    var header := prefix + Tee + x.name + "/";
    var sub := Render(x.listing, prefix + Bar);
    var rest := RenderEntries(s[1..], prefix);
    if s[0] == x {
      var all := [header] + sub + rest;
      assert RenderEntry(x, prefix) == [header] + sub;
      assert RenderEntries(s, prefix) == all;
      assert all[1..1 + |sub|] == sub;
      assert SplicedAt(all, 0, header, sub);
    } else {
      assert x in s[1..];
      EntriesSpliced(s[1..], x, prefix);
      var i :| SplicedAt(rest, i, header, sub);
      var head := RenderEntry(s[0], prefix);
      assert RenderEntries(s, prefix) == head + rest;
      ShiftSpliced(head, rest, i, header, sub);
    }
  }

  lemma ShiftSpliced(head: seq<string>, rest: seq<string>, i: int, header: string, sub: seq<string>)
    requires SplicedAt(rest, i, header, sub)
    ensures SplicedAt(head + rest, |head| + i, header, sub)
  {
    var j := |head| + i;
    assert (head + rest)[j] == rest[i];
    assert (head + rest)[j + 1..j + 1 + |sub|] == rest[i + 1..i + 1 + |sub|];
  }

  /**
   * A folder whose listing fails renders as its own line followed by one
   * ERROR line one level deeper; any sibling folder y is still rendered as
   * usual, its line followed by its own subtree.
   */
  lemma FailedFolderOneErrorLine(es: seq<Entry>, name: string, reason: string, y: Entry, prefix: string)
    requires Folder(name, ListFailed(reason)) in es
    requires y in es && y.Folder?
    ensures exists i :: 0 <= i && i + 1 < |Render(Listed(es), prefix)|
                        && Render(Listed(es), prefix)[i] == prefix + Tee + name + "/"
                        && Render(Listed(es), prefix)[i + 1] == prefix + Bar + Tee + "ERROR: " + reason
    ensures exists j :: SplicedAt(Render(Listed(es), prefix), j, prefix + Tee + y.name + "/",
                                  Render(y.listing, prefix + Bar))
  {
    var x := Folder(name, ListFailed(reason));
    SubtreeSpliced(es, x, prefix);
    SubtreeSpliced(es, y, prefix);
    var L := Render(Listed(es), prefix);
    var i :| SplicedAt(L, i, prefix + Tee + name + "/", Render(x.listing, prefix + Bar));
    assert L[i + 1..i + 2][0] == L[i + 1];
  }

  // ---------------------------------------------------------------------
  // Siblings come in sorted order
  // ---------------------------------------------------------------------

  /** The names of the folders of a list of entries, in list order. */
  function FolderNames(s: seq<Entry>): seq<string>
  {
    if s == [] then []
    else (if s[0].Folder? then [s[0].name] else []) + FolderNames(s[1..])
  }

  /** The names visited directly below the root, in walk order. */
  function TopLevel(vs: seq<Visit>): seq<string>
  {
    if vs == [] then []
    else TopOne(vs[0]) + TopLevel(vs[1..])
  }

  predicate NamesSorted(ns: seq<string>)
  {
    forall i, j :: 0 <= i < j < |ns| ==> NameLe(ns[i], ns[j])
  }

  function TopOne(v: Visit): seq<string>
  {
    if v.Entered? && v.parents == [] then [v.name] else []
  }

  lemma {:induction false} TopLevelAppend(a: seq<Visit>, b: seq<Visit>)
    ensures TopLevel(a + b) == TopLevel(a) + TopLevel(b)
  {
    if a == [] {
      assert a + b == b;
    } else {
      var ab := a + b;
      assert ab != [] && ab[0] == a[0] && ab[1..] == a[1..] + b;
      TopLevelAppend(a[1..], b);
      calc {
        TopLevel(ab);
        TopOne(a[0]) + TopLevel(a[1..] + b);
        TopOne(a[0]) + (TopLevel(a[1..]) + TopLevel(b));
        (TopOne(a[0]) + TopLevel(a[1..])) + TopLevel(b);
      }
    }
  }

  lemma {:induction false} TopLevelNested(n: string, vs: seq<Visit>)
    ensures TopLevel(NestAll(n, vs)) == []
  {
    if vs != [] {
      TopLevelNested(n, vs[1..]);
      assert NestAll(n, vs)[1..] == NestAll(n, vs[1..]);
    }
  }

  lemma {:induction false} TopLevelOfEntries(s: seq<Entry>)
    ensures TopLevel(PreOrderEntries(s)) == FolderNames(s)
  {
    if s != [] {
      TopLevelOfEntries(s[1..]);
      TopLevelAppend(PreOrderEntry(s[0]), PreOrderEntries(s[1..]));
      match s[0]
      case File(_) =>
      case Folder(n, l) =>
        TopLevelAppend([Entered([], n)], NestAll(n, PreOrder(l)));
        TopLevelNested(n, PreOrder(l));
    }
  }

  lemma {:induction false} FolderNamesFrom(s: seq<Entry>, y: string)
    requires y in FolderNames(s)
    ensures exists e :: e in s && e.Folder? && e.name == y
  {
    if s[0].Folder? && y == s[0].name {
      assert s[0] in s;
    } else {
      FolderNamesFrom(s[1..], y);
      var e :| e in s[1..] && e.Folder? && e.name == y;
      assert e in s;
    }
  }

  lemma {:induction false} FolderNamesSorted(s: seq<Entry>)
    requires SortedByName(s)
    ensures NamesSorted(FolderNames(s))
  {
    if s != [] {
      FolderNamesSorted(s[1..]);
      var tail := FolderNames(s[1..]);
      forall j | 0 <= j < |tail| ensures NameLe(s[0].name, tail[j]) {
        assert tail[j] in tail;
        FolderNamesFrom(s[1..], tail[j]);
        var e :| e in s[1..] && e.Folder? && e.name == tail[j];
        var k :| 0 <= k < |s[1..]| && s[1..][k] == e;
        assert s[k + 1] == e;
      }
    }
  }

  lemma {:induction false} FolderNamesInsert(x: Entry, s: seq<Entry>)
    requires SortedByName(s)
    ensures multiset(FolderNames(Insert(x, s))) == multiset(FolderNames([x])) + multiset(FolderNames(s))
  {
    if s != [] && !NameLe(x.name, s[0].name) {
      FolderNamesInsert(x, s[1..]);
      assert ([s[0]] + Insert(x, s[1..]))[1..] == Insert(x, s[1..]);
    } else if s != [] {
      assert ([x] + s)[1..] == s;
      assert ([x] + s)[0] == x;
    }
  }

  lemma {:induction false} FolderNamesSort(s: seq<Entry>)
    ensures multiset(FolderNames(Sort(s))) == multiset(FolderNames(s))
  {
    if s != [] {
      FolderNamesSort(s[1..]);
      FolderNamesInsert(s[0], Sort(s[1..]));
    }
  }

  /**
   * The folders directly below a directory are visited in name order, and
   * they are exactly the folders of its listing.
   */
  lemma ChildrenInSortedOrder(es: seq<Entry>)
    ensures NamesSorted(TopLevel(PreOrder(Listed(es))))
    ensures multiset(TopLevel(PreOrder(Listed(es)))) == multiset(FolderNames(es))
  {
    TopLevelOfEntries(Sort(es));
    FolderNamesSorted(Sort(es));
    FolderNamesSort(es);
  }

  // ---------------------------------------------------------------------
  // The connector
  // ---------------------------------------------------------------------

  /** line begins with the prefix, k continuation markers and the connector "├── ". */
  predicate BranchesAt(line: string, prefix: string, k: nat)
  {
    prefix + Indent(k) + Tee <= line
  }

  /** line is the prefix, some number of continuation markers, the connector, then text. */
  ghost predicate Branches(line: string, prefix: string)
  {
    exists k: nat :: BranchesAt(line, prefix, k)
  }

  /** Every line uses the branch connector, whatever the folder's place among its siblings. */
  lemma EveryLineBranches(l: Listing, prefix: string)
    ensures forall i :: 0 <= i < |Render(l, prefix)| ==> Branches(Render(l, prefix)[i], prefix)
  {
    RenderIsPreOrder(l, prefix);
    var vs := PreOrder(l);
    forall i | 0 <= i < |Render(l, prefix)|
      ensures Branches(Render(l, prefix)[i], prefix)
    {
      var k := Depth(vs[i]);
      assert Render(l, prefix)[i] == prefix + Line(vs[i]);
      Regroup3(prefix, Indent(k), Tee, Label(vs[i]));
      assert BranchesAt(Render(l, prefix)[i], prefix, k);
    }
  }

  const CornerGlyph: char := '\U{2514}'

  /** No folder name and no failure message below this directory contains "└". */
  predicate CornerFree(l: Listing)
    decreases l
  {
    match l
    case ListFailed(reason) => CornerGlyph !in reason
    case Listed(es) => forall i :: 0 <= i < |es| ==> EntryCornerFree(es[i])
  }

  predicate EntryCornerFree(e: Entry)
    decreases e
  {
    match e
    case File(_) => true
    case Folder(name, l) => CornerGlyph !in name && CornerFree(l)
  }

  predicate VisitCornerFree(v: Visit)
  {
    match v
    case Entered(_, name) => CornerGlyph !in name
    case Failed(_, reason) => CornerGlyph !in reason
  }

  lemma {:induction false} WalkCornerFree(l: Listing)
    requires CornerFree(l)
    ensures forall i :: 0 <= i < |PreOrder(l)| ==> VisitCornerFree(PreOrder(l)[i])
    decreases Size(l), 0
  {
    match l
    case ListFailed(_) =>
    case Listed(es) =>
      SortSize(es);
      var s := Sort(es);
      forall j | 0 <= j < |s| ensures EntryCornerFree(s[j]) {
        assert s[j] in multiset(es);
        var k :| 0 <= k < |es| && es[k] == s[j];
      }
      EntriesWalkCornerFree(s);
  }

  lemma {:induction false} EntriesWalkCornerFree(s: seq<Entry>)
    requires forall j :: 0 <= j < |s| ==> EntryCornerFree(s[j])
    ensures forall i :: 0 <= i < |PreOrderEntries(s)| ==> VisitCornerFree(PreOrderEntries(s)[i])
    decreases EntriesSize(s), 1
  {
    if s != [] {
      EntriesWalkCornerFree(s[1..]);
      match s[0]
      case File(_) =>
      case Folder(n, l) =>
        assert Size(l) < EntrySize(s[0]);
        WalkCornerFree(l);
        var nested := NestAll(n, PreOrder(l));
        assert forall i :: 0 <= i < |nested| ==> VisitCornerFree(nested[i]) by {
          forall i | 0 <= i < |nested| ensures VisitCornerFree(nested[i]) {
            assert VisitCornerFree(PreOrder(l)[i]);
          }
        }
    }
  }

  lemma {:induction false} IndentCornerFree(k: nat)
    ensures CornerGlyph !in Indent(k)
  {
    if k > 0 {
      IndentCornerFree(k - 1);
    }
  }

  /**
   * The last-child connector "└──" is never produced: a "└" can appear in a
   * line only if the caller's prefix, a folder name or a failure message
   * brought it in.
   */
  lemma NoLastChildConnector(l: Listing, prefix: string)
    requires CornerGlyph !in prefix && CornerFree(l)
    ensures forall i :: 0 <= i < |Render(l, prefix)| ==> CornerGlyph !in Render(l, prefix)[i]
  {
    RenderIsPreOrder(l, prefix);
    WalkCornerFree(l);
    var vs := PreOrder(l);
    forall i | 0 <= i < |vs| ensures CornerGlyph !in prefix + Line(vs[i]) {
      IndentCornerFree(Depth(vs[i]));
      assert VisitCornerFree(vs[i]);
    }
  }
}
