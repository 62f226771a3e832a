/**
 * Worked cases: a source tree with folders B and C, C holding D, and a file
 * beside them, listed out of name order.
 */
module Scenarios {
  import opened FolderTree
  import opened Destination
  import opened Replicator

  const B: Entry := Folder("B", Listed([]))
  const D: Entry := Folder("D", Listed([]))
  const C: Entry := Folder("C", Listed([D]))
  const Notes: Entry := File("notes.txt")

  lemma SampleNames()
    ensures !NameLe(Notes.name, B.name)
    ensures NameLe(B.name, Notes.name)
    ensures NameLe(C.name, Notes.name)
    ensures !NameLe(C.name, B.name)
  {
    assert Notes.name[0] == 'n' && B.name[0] == 'B' && C.name[0] == 'C';
  }

  lemma SampleSortedPair()
    ensures Sort([Notes, B]) == [B, Notes]
  {
    SampleNames();
    assert Sort([B]) == [B];
    assert [Notes, B][1..] == [B];
    assert Insert(Notes, [B]) == [B] + Insert(Notes, []);
  }

  lemma SampleInsertC()
    ensures Insert(C, [B, Notes]) == [B, C, Notes]
  {
    SampleNames();
    assert Insert(C, [Notes]) == [C, Notes];
    assert [B, Notes][1..] == [Notes];
    assert Insert(C, [B, Notes]) == [B] + Insert(C, [Notes]);
  }

  lemma SampleSorted()
    ensures Sort([C, Notes, B]) == [B, C, Notes]
  {
    SampleSortedPair();
    SampleInsertC();
    assert [C, Notes, B][1..] == [Notes, B];
  }

  lemma SampleLeafD()
    ensures RenderEntries([D], Bar) == [Bar + Tee + "D/"]
  {
    assert Render(D.listing, Bar + Bar) == [];
    assert Bar + Tee + "D" + "/" == Bar + Tee + "D/";
    assert RenderEntry(D, Bar) == [Bar + Tee + "D/"];
  }

  lemma SampleFolderC()
    ensures RenderEntry(C, "") == [Tee + "C/", Bar + Tee + "D/"]
  {
    SampleLeafD();
    assert Sort([D]) == [D];
    assert "" + Bar == Bar;
    assert Render(C.listing, "" + Bar) == [Bar + Tee + "D/"];
    assert "" + Tee + "C" + "/" == Tee + "C/";
  }

  lemma SampleSubtree()
    ensures RenderEntries([C, Notes], "") == [Tee + "C/", Bar + Tee + "D/"]
  {
    SampleFolderC();
    assert RenderEntries([Notes], "") == [];
    assert [C, Notes][1..] == [Notes];
  }

  lemma SampleFolderB()
    ensures RenderEntry(B, "") == [Tee + "B/"]
  {
    assert Render(B.listing, "" + Bar) == [];
    assert "" + Tee + "B" + "/" == Tee + "B/";
  }

  /** The rendering lists B before C, D one level deeper under C, and no line for the file. */
  lemma SampleRendering()
    ensures Render(Listed([C, Notes, B]), "") == [Tee + "B/", Tee + "C/", Bar + Tee + "D/"]
  {
    SampleSorted();
    SampleSubtree();
    SampleFolderB();
    assert [B, C, Notes][1..] == [C, Notes];
    assert RenderEntries([B, C, Notes], "") == RenderEntry(B, "") + RenderEntries([C, Notes], "");
  }

  function SampleWalk(): seq<RelPath>
  {
    [[], ["B"], ["C"], ["C", "D"]]
  }

  lemma SampleAttempts()
    ensures Attempts(SampleWalk()) == 3
  {
    var walk := SampleWalk();
    assert walk[..1][..0] == [];
    assert walk[..2][..1] == walk[..1];
    assert walk[..3][..2] == walk[..2];
    assert Attempts(walk[..1]) == 0;
    assert Attempts(walk[..2]) == 1;
    assert Attempts(walk[..3]) == 2;
  }

  /** Walking that tree into a destination holding only its root creates B, C and C/D with no error. */
  lemma SampleCopyCounts()
    ensures Replay(Tally({[]}, 0, 0), {}, SampleWalk()).copied == 3
    ensures Replay(Tally({[]}, 0, 0), {}, SampleWalk()).errors == 0
  {
    ReplayIsGrow({[]}, 0, 0, {}, SampleWalk());
    WritableDestinationHasNoErrors({[]}, SampleWalk());
    SampleAttempts();
  }

  lemma SamplePrefix(q: RelPath, i: nat)
    requires i < |SampleWalk()| && q <= SampleWalk()[i]
    ensures q in {[], ["B"], ["C"], ["C", "D"]}
  {
    var t := SampleWalk()[i];
    assert q == t[..|q|];
    if |q| == 2 {
      assert t == ["C", "D"] && q == t;
    } else if |q| == 1 {
      assert q == [t[0]];
    }
  }

  lemma SampleGrowWithin()
    ensures forall q :: q in Grow({[]}, {}, SampleWalk()) ==> q in {[], ["B"], ["C"], ["C", "D"]}
  {
    var walk := SampleWalk();
    var g := Grow({[]}, {}, walk);
    NothingElseCreated({[]}, {}, walk);
    forall q | q in g ensures q in {[], ["B"], ["C"], ["C", "D"]} {
      if q != [] {
        assert q in g - {[]};
        var i :| 0 <= i < |walk| && q <= walk[i];
        SamplePrefix(q, i);
      }
    }
  }

  lemma SampleMirrored()
    ensures [] in Replay(Tally({[]}, 0, 0), {}, SampleWalk()).fs
    ensures ["B"] in Replay(Tally({[]}, 0, 0), {}, SampleWalk()).fs
    ensures ["C"] in Replay(Tally({[]}, 0, 0), {}, SampleWalk()).fs
    ensures ["C", "D"] in Replay(Tally({[]}, 0, 0), {}, SampleWalk()).fs
  {
    var walk := SampleWalk();
    WritableDestinationHasNoErrors({[]}, walk);
    assert walk[0] == [] && walk[1] == ["B"] && walk[2] == ["C"] && walk[3] == ["C", "D"];
  }

  /** Afterwards the destination holds exactly the mirrored tree. */
  lemma SampleCopyDestination()
    ensures Replay(Tally({[]}, 0, 0), {}, SampleWalk()).fs == {[], ["B"], ["C"], ["C", "D"]}
  {
    var fs := Replay(Tally({[]}, 0, 0), {}, SampleWalk()).fs;
    var expected: set<RelPath> := {[], ["B"], ["C"], ["C", "D"]};
    ReplayIsGrow({[]}, 0, 0, {}, SampleWalk());
    SampleGrowWithin();
    SampleMirrored();
    assert fs <= expected;
    assert expected <= fs;
  }
}
