/**
 * The folder-tree renderer of FolderMirror (generate_folder_tree).
 *
 * A directory is seen through what listing it gives: either its entries, in
 * the order the operating system returns them, or the message of the
 * exception raised when it cannot be listed. The renderer sorts the entries
 * by name, keeps the folders, and emits one line per folder followed by the
 * lines of that folder's own rendering, one indentation level deeper.
 */
module FolderTree {

  /** One entry of a directory listing. */
  datatype Entry =
    | File(name: string)
    | Folder(name: string, listing: Listing)

  /** The outcome of listing a directory's contents. */
  datatype Listing =
    | Listed(entries: seq<Entry>)
    | ListFailed(reason: string)

  /** The branch connector "├── " (U+251C, two U+2500, a space). */
  const Tee: string := "\U{251C}\U{2500}\U{2500} "
  /** The continuation marker "│   " (U+2502 and three spaces). */
  const Bar: string := "\U{2502}   "

  // ---------------------------------------------------------------------
  // Name order and sorting (Python's sorted() over sibling paths)
  // ---------------------------------------------------------------------

  /** Lexicographic order on names by code point, the order of Python str. */
  predicate NameLe(a: string, b: string)
  {
    |a| == 0 || (|b| > 0 && (a[0] < b[0] || (a[0] == b[0] && NameLe(a[1..], b[1..]))))
  }

  lemma {:induction false} NameLeTotal(a: string, b: string)
    ensures NameLe(a, b) || NameLe(b, a)
  {
    if |a| > 0 && |b| > 0 && a[0] == b[0] {
      NameLeTotal(a[1..], b[1..]);
    }
  }

  lemma {:induction false} NameLeTransitive(a: string, b: string, c: string)
    requires NameLe(a, b) && NameLe(b, c)
    ensures NameLe(a, c)
  {
    if |a| > 0 && a[0] == b[0] && b[0] == c[0] {
      NameLeTransitive(a[1..], b[1..], c[1..]);
    }
  }

  lemma {:induction false} NameLeAntisymmetric(a: string, b: string)
    requires NameLe(a, b) && NameLe(b, a)
    ensures a == b
  {
    if |a| > 0 {
      NameLeAntisymmetric(a[1..], b[1..]);
      assert a == [a[0]] + a[1..] && b == [b[0]] + b[1..];
    }
  }

  predicate SortedByName(s: seq<Entry>)
  {
    forall i, j :: 0 <= i < j < |s| ==> NameLe(s[i].name, s[j].name)
  }

  /** Inserts x into a sorted list before the first entry not below it. */
  function Insert(x: Entry, s: seq<Entry>): (r: seq<Entry>)
    requires SortedByName(s)
    ensures SortedByName(r)
    ensures multiset(r) == multiset(s) + multiset{x}
  {
    if s == [] then [x]
    else if NameLe(x.name, s[0].name) then
      InsertFront(x, s);
      [x] + s
    else
      var rest := Insert(x, s[1..]);
      InsertBehind(x, s, rest);
      [s[0]] + rest
  }

  lemma InsertFront(x: Entry, s: seq<Entry>)
    requires SortedByName(s) && s != [] && NameLe(x.name, s[0].name)
    ensures SortedByName([x] + s)
  {
    forall j | 0 <= j < |s| ensures NameLe(x.name, s[j].name) {
      if j > 0 { NameLeTransitive(x.name, s[0].name, s[j].name); }
    }
  }

  lemma InsertBehind(x: Entry, s: seq<Entry>, rest: seq<Entry>)
    requires SortedByName(s) && s != [] && !NameLe(x.name, s[0].name)
    requires SortedByName(rest) && multiset(rest) == multiset(s[1..]) + multiset{x}
    ensures SortedByName([s[0]] + rest)
    ensures multiset([s[0]] + rest) == multiset(s) + multiset{x}
  {
    NameLeTotal(x.name, s[0].name);
    forall j | 0 <= j < |rest| ensures NameLe(s[0].name, rest[j].name) {
      assert rest[j] in multiset(rest);
      if rest[j] != x {
        assert rest[j] in multiset(s[1..]);
        var k :| 0 <= k < |s[1..]| && s[1..][k] == rest[j];
        assert s[k + 1] == rest[j];
      }
    }
    assert s == [s[0]] + s[1..];
  }

  /** A sort by name (insertion sort): the order in which the renderer visits a listing. */
  function Sort(s: seq<Entry>): (r: seq<Entry>)
    ensures SortedByName(r)
    ensures multiset(r) == multiset(s)
  {
    if s == [] then []
    else
      assert s == [s[0]] + s[1..];
      Insert(s[0], Sort(s[1..]))
  }

  // ---------------------------------------------------------------------
  // Size of a tree (a termination measure that survives sorting)
  // ---------------------------------------------------------------------

  function Size(l: Listing): nat
    decreases l
  {
    match l
    case ListFailed(_) => 1
    case Listed(es) => 1 + EntriesSize(es)
  }

  function EntriesSize(es: seq<Entry>): nat
    decreases es
  {
    if es == [] then 0 else EntrySize(es[0]) + EntriesSize(es[1..])
  }

  function EntrySize(e: Entry): (n: nat)
    decreases e
    ensures n >= 1
  {
    match e
    case File(_) => 1
    case Folder(_, l) => 1 + Size(l)
  }

  lemma {:induction false} InsertSize(x: Entry, s: seq<Entry>)
    requires SortedByName(s)
    ensures EntriesSize(Insert(x, s)) == EntrySize(x) + EntriesSize(s)
  {
    if s != [] && !NameLe(x.name, s[0].name) {
      InsertSize(x, s[1..]);
      assert ([s[0]] + Insert(x, s[1..]))[1..] == Insert(x, s[1..]);
    } else if s != [] {
      assert ([x] + s)[1..] == s;
    }
  }

  lemma {:induction false} SortSize(s: seq<Entry>)
    ensures EntriesSize(Sort(s)) == EntriesSize(s)
  {
    if s != [] {
      SortSize(s[1..]);
      InsertSize(s[0], Sort(s[1..]));
    }
  }

  lemma {:induction false} EntryWithinSize(s: seq<Entry>, i: nat)
    requires i < |s|
    ensures EntrySize(s[i]) <= EntriesSize(s)
  {
    if i > 0 {
      EntryWithinSize(s[1..], i - 1);
    }
  }

  // ---------------------------------------------------------------------
  // The renderer
  // ---------------------------------------------------------------------

  /** The lines generate_folder_tree returns for a directory with this listing; each starts with the prefix. */
  function Render(l: Listing, prefix: string): (r: seq<string>)
    ensures forall i :: 0 <= i < |r| ==> prefix <= r[i]
    decreases Size(l), 0
  {
    match l
    case ListFailed(reason) => [prefix + Tee + "ERROR: " + reason]
    case Listed(es) =>
      SortSize(es);
      RenderEntries(Sort(es), prefix)
  }

  /** The lines of a list of entries, in list order. */
  function RenderEntries(es: seq<Entry>, prefix: string): (r: seq<string>)
    ensures forall i :: 0 <= i < |r| ==> prefix <= r[i]
    decreases EntriesSize(es), 1
  {
    if es == [] then []
    else RenderEntry(es[0], prefix) + RenderEntries(es[1..], prefix)
  }

  /** One loop iteration: a file adds nothing, a folder its line and its subtree. */
  function RenderEntry(e: Entry, prefix: string): (r: seq<string>)
    ensures forall i :: 0 <= i < |r| ==> prefix <= r[i]
    decreases EntrySize(e), 0
  {
    match e
    case File(_) => []
    case Folder(name, l) => [prefix + Tee + name + "/"] + Render(l, prefix + Bar)
  }

  lemma {:induction false} RenderEntriesAppend(a: seq<Entry>, b: seq<Entry>, prefix: string)
    ensures RenderEntries(a + b, prefix) == RenderEntries(a, prefix) + RenderEntries(b, prefix)
  {
    if a == [] {
      assert a + b == b;
    } else {
      var ab := a + b;
      assert ab != [] && ab[0] == a[0] && ab[1..] == a[1..] + b;
      RenderEntriesAppend(a[1..], b, prefix);
      calc {
        RenderEntries(ab, prefix);
        RenderEntry(a[0], prefix) + RenderEntries(a[1..] + b, prefix);
        RenderEntry(a[0], prefix) + (RenderEntries(a[1..], prefix) + RenderEntries(b, prefix));
        (RenderEntry(a[0], prefix) + RenderEntries(a[1..], prefix)) + RenderEntries(b, prefix);
      }
    }
  }

  lemma RenderEntriesSnoc(s: seq<Entry>, i: nat, prefix: string)
    requires i < |s|
    ensures RenderEntries(s[..i + 1], prefix) == RenderEntries(s[..i], prefix) + RenderEntry(s[i], prefix)
  {
    assert s[..i + 1] == s[..i] + [s[i]];
    RenderEntriesAppend(s[..i], [s[i]], prefix);
    assert RenderEntries([s[i]], prefix) == RenderEntry(s[i], prefix) + RenderEntries([], prefix);
  }

  /**
   * generate_folder_tree as the source writes it: a loop over the sorted
   * listing that appends each folder's line and extends the result with the
   * recursive rendering; a failed listing yields its single ERROR line.
   */
  method GenerateFolderTree(l: Listing, prefix: string) returns (tree: seq<string>)
    ensures tree == Render(l, prefix)
    decreases Size(l)
  {
    match l
    case ListFailed(reason) =>
      tree := [prefix + Tee + "ERROR: " + reason];
    case Listed(es) =>
      var items := Sort(es);
      SortSize(es);
      tree := [];
      for i := 0 to |items|
        invariant tree == RenderEntries(items[..i], prefix)
      {
        var item := items[i];
        RenderEntriesSnoc(items, i, prefix);
        if item.Folder? {
          EntryWithinSize(items, i);
          assert Size(item.listing) < Size(l);
          tree := tree + [prefix + Tee + item.name + "/"];
          var sub := GenerateFolderTree(item.listing, prefix + Bar);
          assert RenderEntry(item, prefix) == [prefix + Tee + item.name + "/"] + sub;
          tree := tree + sub;
        }
      }
      assert items[..|items|] == items;
  }
}
