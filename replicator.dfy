/**
 * The structure replicator of FolderMirror (copy_structure): check that both
 * paths were chosen, open the log, render the source tree, then walk every
 * directory of the source and create the same relative path below the
 * destination, counting successes and failures; a failure never stops the
 * walk. The walk (what os.walk yields, as paths relative to the source) is a
 * parameter, and so is whether the log file can be opened.
 */
module Replicator {
  import opened Destination
  import FolderTree

  /** The destination and the loop's two counters, copied_count and error_count. */
  datatype Tally = Tally(fs: set<RelPath>, copied: nat, errors: nat)

  /**
   * One iteration of the walk loop: the root is skipped, any other directory
   * is created with its parents and adds one to exactly one counter, the
   * success counter exactly when the directory exists afterwards.
   */
  function Step(t: Tally, denied: set<RelPath>, rel: RelPath): (r: Tally)
    requires FsValid(t.fs)
    ensures FsValid(r.fs)
    ensures t.fs <= r.fs
    ensures forall q :: q in r.fs - t.fs ==> q <= rel && q !in denied
    ensures rel == [] ==> r == t
    ensures rel != [] ==> r.copied + r.errors == t.copied + t.errors + 1
    ensures rel != [] ==> if rel in r.fs then r.copied == t.copied + 1 && r.errors == t.errors
                          else r.copied == t.copied && r.errors == t.errors + 1
  {
    if rel == [] then t
    else
      MakeDirsEffect(t.fs, denied, rel);
      var made := MakeDirs(t.fs, denied, rel);
      if made.ok then Tally(made.fs, t.copied + 1, t.errors)
      else Tally(made.fs, t.copied, t.errors + 1)
  }

  /**
   * The state after the loop has run over the walk, in walk order: the
   * destination only grows, and the counters grow by one per walked
   * directory other than the root.
   */
  function Replay(t: Tally, denied: set<RelPath>, walk: seq<RelPath>): (r: Tally)
    requires FsValid(t.fs)
    ensures FsValid(r.fs)
    ensures t.fs <= r.fs
    ensures r.copied >= t.copied && r.errors >= t.errors
    ensures r.copied + r.errors == t.copied + t.errors + Attempts(walk)
    decreases |walk|
  {
    if walk == [] then t
    else Step(Replay(t, denied, walk[..|walk| - 1]), denied, walk[|walk| - 1])
  }

  // ---------------------------------------------------------------------
  // Order-free reference: what happens to each walked path on its own
  // ---------------------------------------------------------------------

  /** The number of walked directories other than the root. */
  function Attempts(walk: seq<RelPath>): nat
  {
    if walk == [] then 0
    else Attempts(walk[..|walk| - 1]) + (if walk[|walk| - 1] == [] then 0 else 1)
  }

  /** The number of walked directories, other than the root, that meet a refusal. */
  function Refused(fs0: set<RelPath>, denied: set<RelPath>, walk: seq<RelPath>): (n: nat)
    ensures n <= Attempts(walk)
  {
    if walk == [] then 0
    else
      var last := walk[|walk| - 1];
      Refused(fs0, denied, walk[..|walk| - 1])
      + (if last != [] && !ClearUpTo(fs0, denied, last, |last|) then 1 else 0)
  }

  /** The destination after every walked directory has been created as far as it can be. */
  function Grow(fs0: set<RelPath>, denied: set<RelPath>, walk: seq<RelPath>): set<RelPath>
  {
    if walk == [] then fs0
    else
      var last := walk[|walk| - 1];
      Grow(fs0, denied, walk[..|walk| - 1]) + (if last == [] then {} else Created(fs0, denied, last))
  }

  /** Directories created along the way are never refused ones, so refusals depend on the start state only. */
  lemma ClearStable(fs0: set<RelPath>, fs: set<RelPath>, denied: set<RelPath>, t: RelPath)
    requires fs0 <= fs && forall q :: q in fs - fs0 ==> q !in denied
    ensures forall j :: 0 <= j <= |t| ==> ClearUpTo(fs, denied, t, j) == ClearUpTo(fs0, denied, t, j)
    ensures Created(fs, denied, t) == Created(fs0, denied, t)
  {
  }

  lemma {:induction false} GrowFacts(fs0: set<RelPath>, denied: set<RelPath>, walk: seq<RelPath>)
    requires FsValid(fs0)
    ensures fs0 <= Grow(fs0, denied, walk)
    ensures forall q :: q in Grow(fs0, denied, walk) - fs0 ==> q !in denied
  {
    if walk != [] {
      GrowFacts(fs0, denied, walk[..|walk| - 1]);
      var last := walk[|walk| - 1];
      forall q | q in Created(fs0, denied, last) - fs0 ensures q !in denied {
        var j :| 0 <= j <= |last| && ClearUpTo(fs0, denied, last, j) && q == last[..j];
        assert j > 0;
      }
    }
  }

  /**
   * The loop computes the reference: the destination is Grow, every non-root
   * directory adds one to exactly one counter, and the failures are exactly
   * the walked directories that meet a refusal.
   */
  lemma {:induction false} ReplayIsGrow(fs0: set<RelPath>, c: nat, e: nat, denied: set<RelPath>, walk: seq<RelPath>)
    requires FsValid(fs0)
    ensures Replay(Tally(fs0, c, e), denied, walk)
            == Tally(Grow(fs0, denied, walk),
                     c + Attempts(walk) - Refused(fs0, denied, walk),
                     e + Refused(fs0, denied, walk))
  {
    if walk != [] {
      var init := walk[..|walk| - 1];
      var last := walk[|walk| - 1];
      ReplayIsGrow(fs0, c, e, denied, init);
      var g := Grow(fs0, denied, init);
      GrowFacts(fs0, denied, init);
      ClearStable(fs0, g, denied, last);
    }
  }

  /** Counter invariant: copied_count + error_count is the number of non-root directories walked. */
  lemma EveryDirectoryCountedOnce(fs0: set<RelPath>, denied: set<RelPath>, walk: seq<RelPath>)
    requires FsValid(fs0)
    ensures Replay(Tally(fs0, 0, 0), denied, walk).copied + Replay(Tally(fs0, 0, 0), denied, walk).errors
            == Attempts(walk)
  {
    ReplayIsGrow(fs0, 0, 0, denied, walk);
  }

  lemma {:induction false} CreatedWithinGrow(fs0: set<RelPath>, denied: set<RelPath>, walk: seq<RelPath>, i: nat)
    requires i < |walk| && walk[i] != []
    ensures Created(fs0, denied, walk[i]) <= Grow(fs0, denied, walk)
  {
    if i < |walk| - 1 {
      assert walk[..|walk| - 1][i] == walk[i];
      CreatedWithinGrow(fs0, denied, walk[..|walk| - 1], i);
    }
  }

  lemma {:induction false} GrowClear(fs0: set<RelPath>, denied: set<RelPath>, walk: seq<RelPath>)
    requires FsValid(fs0)
    ensures forall q :: q in Grow(fs0, denied, walk) ==> ClearUpTo(fs0, denied, q, |q|)
  {
    if walk != [] {
      GrowClear(fs0, denied, walk[..|walk| - 1]);
      var last := walk[|walk| - 1];
      forall q | q in Created(fs0, denied, last) ensures ClearUpTo(fs0, denied, q, |q|) {
        var j :| 0 <= j <= |last| && ClearUpTo(fs0, denied, last, j) && q == last[..j];
        forall m | 0 < m <= |q| ensures q[..m] == last[..m] {
        }
      }
    }
  }

  /**
   * Mirrored structure: after the walk a walked directory exists below the
   * destination exactly when none of its ancestors (itself included) was
   * missing and refused; its ancestors then exist too.
   */
  lemma WalkedDirectoryExists(fs0: set<RelPath>, denied: set<RelPath>, walk: seq<RelPath>, i: nat)
    requires FsValid(fs0) && i < |walk|
    ensures walk[i] in Grow(fs0, denied, walk) <==> ClearUpTo(fs0, denied, walk[i], |walk[i]|)
    ensures walk[i] in Grow(fs0, denied, walk) ==>
              forall j :: 0 <= j <= |walk[i]| ==> walk[i][..j] in Grow(fs0, denied, walk)
  {
    var t := walk[i];
    GrowClear(fs0, denied, walk);
    ReplayIsGrow(fs0, 0, 0, denied, walk);
    if ClearUpTo(fs0, denied, t, |t|) {
      if t == [] {
        GrowFacts(fs0, denied, walk);
      } else {
        CreatedWithinGrow(fs0, denied, walk, i);
        assert t[..|t|] == t;
      }
    }
  }

  /** Nothing outside the walked directories and their ancestors is created. */
  lemma {:induction false} NothingElseCreated(fs0: set<RelPath>, denied: set<RelPath>, walk: seq<RelPath>)
    ensures forall q :: q in Grow(fs0, denied, walk) - fs0 ==> exists i :: 0 <= i < |walk| && q <= walk[i]
  {
    if walk != [] {
      var init := walk[..|walk| - 1];
      NothingElseCreated(fs0, denied, init);
      forall q | q in Grow(fs0, denied, walk) - fs0 ensures exists i :: 0 <= i < |walk| && q <= walk[i] {
        if q in Grow(fs0, denied, init) {
          assert q in Grow(fs0, denied, init) - fs0;
          var i :| 0 <= i < |init| && q <= init[i];
          assert walk[i] == init[i];
        } else {
          var last := walk[|walk| - 1];
          var j :| 0 <= j <= |last| && ClearUpTo(fs0, denied, last, j) && q == last[..j];
          assert q <= walk[|walk| - 1];
        }
      }
    }
  }

  /** A run with no failures is one after which every walked directory exists, and conversely. */
  lemma {:induction false} NoErrorsIffMirrored(fs0: set<RelPath>, denied: set<RelPath>, walk: seq<RelPath>)
    requires FsValid(fs0)
    ensures Refused(fs0, denied, walk) == 0
            <==> forall i :: 0 <= i < |walk| ==> walk[i] in Grow(fs0, denied, walk)
  {
    forall i | 0 <= i < |walk| {
      WalkedDirectoryExists(fs0, denied, walk, i);
    }
    RefusedZero(fs0, denied, walk);
  }

  lemma {:induction false} RefusedZero(fs0: set<RelPath>, denied: set<RelPath>, walk: seq<RelPath>)
    ensures Refused(fs0, denied, walk) == 0
            <==> forall i :: 0 <= i < |walk| ==> ClearUpTo(fs0, denied, walk[i], |walk[i]|)
  {
    if walk != [] {
      var init := walk[..|walk| - 1];
      RefusedZero(fs0, denied, init);
      assert forall i :: 0 <= i < |init| ==> init[i] == walk[i];
    }
  }

  /** On a destination that refuses nothing, every walked directory is mirrored and no error is counted. */
  lemma WritableDestinationHasNoErrors(fs0: set<RelPath>, walk: seq<RelPath>)
    requires FsValid(fs0)
    ensures Replay(Tally(fs0, 0, 0), {}, walk).errors == 0
    ensures forall i :: 0 <= i < |walk| ==> walk[i] in Replay(Tally(fs0, 0, 0), {}, walk).fs
  {
    ReplayIsGrow(fs0, 0, 0, {}, walk);
    RefusedZero(fs0, {}, walk);
    NoErrorsIffMirrored(fs0, {}, walk);
  }

  lemma {:induction false} GrowSaturated(g: set<RelPath>, denied: set<RelPath>, walk: seq<RelPath>)
    requires forall i :: 0 <= i < |walk| && walk[i] != [] ==> Created(g, denied, walk[i]) <= g
    ensures Grow(g, denied, walk) == g
  {
    if walk != [] {
      var init := walk[..|walk| - 1];
      assert forall i :: 0 <= i < |init| ==> init[i] == walk[i];
      GrowSaturated(g, denied, init);
    }
  }

  lemma {:induction false} RefusedStable(fs0: set<RelPath>, g: set<RelPath>, denied: set<RelPath>, walk: seq<RelPath>)
    requires fs0 <= g && forall q :: q in g - fs0 ==> q !in denied
    ensures Refused(g, denied, walk) == Refused(fs0, denied, walk)
  {
    if walk != [] {
      RefusedStable(fs0, g, denied, walk[..|walk| - 1]);
      ClearStable(fs0, g, denied, walk[|walk| - 1]);
    }
  }

  /**
   * Idempotence: running the copy a second time over the same walk changes
   * nothing on the destination and reports the same counts; an existing
   * directory is a success. In particular a clean first run is followed by a
   * clean second run.
   */
  lemma SecondRunRepeatsFirst(fs0: set<RelPath>, denied: set<RelPath>, walk: seq<RelPath>)
    requires FsValid(fs0)
    ensures Replay(Tally(Replay(Tally(fs0, 0, 0), denied, walk).fs, 0, 0), denied, walk)
            == Replay(Tally(fs0, 0, 0), denied, walk)
  {
    var g := Grow(fs0, denied, walk);
    ReplayIsGrow(fs0, 0, 0, denied, walk);
    GrowFacts(fs0, denied, walk);
    forall i | 0 <= i < |walk| && walk[i] != [] ensures Created(g, denied, walk[i]) <= g {
      ClearStable(fs0, g, denied, walk[i]);
      CreatedWithinGrow(fs0, denied, walk, i);
    }
    GrowSaturated(g, denied, walk);
    RefusedStable(fs0, g, denied, walk);
    ReplayIsGrow(g, 0, 0, denied, walk);
  }

  // ---------------------------------------------------------------------
  // The operation
  // ---------------------------------------------------------------------

  /** How copy_structure ends, as the dialog it shows tells the user. */
  datatype Outcome =
    | MissingPaths                      // "Please select both source and destination folders"
    | CriticalError                     // "A critical error occurred. Check the log file for details."
    | Success                           // "Folder structure copied successfully!"
    | CompletedWithErrors(errors: nat)  // "Operation completed with N errors."

  /** The part of the folder copier that copy_structure changes: the destination and its two counters. */
  class Copier {
    /** The directories that exist below the destination root. */
    var fs: set<RelPath>
    /** The directories the destination refuses to create. */
    const denied: set<RelPath>
    var copiedCount: nat
    var errorCount: nat

    ghost predicate Valid()
      reads this
    {
      FsValid(fs)
    }

    constructor (fs0: set<RelPath>, denied0: set<RelPath>)
      requires FsValid(fs0)
      ensures Valid() && fs == fs0 && denied == denied0
      ensures copiedCount == 0 && errorCount == 0
    {
      fs := fs0;
      denied := denied0;
      copiedCount := 0;
      errorCount := 0;
    }

    /**
     * copy_structure. sourcePath and destPath are the two chosen paths,
     * logOpens says whether the log file can be created in the destination,
     * source is the listing of the source directory and walk is what os.walk
     * yields for it, as relative paths. The returned lines are the folder
     * tree written into the log.
     */
    method CopyStructure(sourcePath: string, destPath: string, logOpens: bool,
                         source: FolderTree.Listing, walk: seq<RelPath>)
      returns (outcome: Outcome, folderTree: seq<string>)
      requires Valid()
      modifies this
      ensures Valid()
      ensures outcome == MissingPaths <==> sourcePath == [] || destPath == []
      ensures outcome == CriticalError <==> sourcePath != [] && destPath != [] && !logOpens
      ensures outcome.MissingPaths? || outcome.CriticalError? ==>
                fs == old(fs) && copiedCount == old(copiedCount) && errorCount == old(errorCount)
                && folderTree == []
      ensures sourcePath != [] && destPath != [] && logOpens ==>
                && Tally(fs, copiedCount, errorCount) == Replay(Tally(old(fs), 0, 0), denied, walk)
                && fs == Grow(old(fs), denied, walk)
                && copiedCount + errorCount == Attempts(walk)
                && errorCount == Refused(old(fs), denied, walk)
                && folderTree == FolderTree.Render(source, "")
                && outcome == (if errorCount == 0 then Success else CompletedWithErrors(errorCount))
    {
      folderTree := [];
      if sourcePath == [] || destPath == [] {
        return MissingPaths, [];
      }
      if !logOpens {
        return CriticalError, [];
      }
      folderTree := FolderTree.GenerateFolderTree(source, "");
      ghost var fs0 := fs;
      copiedCount, errorCount := 0, 0;
      for i := 0 to |walk|
        invariant FsValid(fs)
        invariant Tally(fs, copiedCount, errorCount) == Replay(Tally(fs0, 0, 0), denied, walk[..i])
      {
        assert walk[..i + 1][..i] == walk[..i];
        var rel := walk[i];
        if rel == [] {
          continue;
        }
        MakeDirsEffect(fs, denied, rel);
        var made := MakeDirs(fs, denied, rel);
        fs := made.fs;
        if made.ok {
          copiedCount := copiedCount + 1;
        } else {
          errorCount := errorCount + 1;
        }
      }
      assert walk[..|walk|] == walk;
      ReplayIsGrow(fs0, 0, 0, denied, walk);
      if errorCount == 0 {
        outcome := Success;
      } else {
        outcome := CompletedWithErrors(errorCount);
      }
    }
  }
}
