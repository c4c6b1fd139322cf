/**
 * The file-system effects of the sorter as functions on a value: the
 * directory chain `create_dir_if_not_exist` creates, the outcome of
 * `move_file`, and the chunks `get_hash` reads.  The classes in module
 * Fs are proved to follow these functions.
 *
 * Paths are compared as strings (no normalisation); a directory is
 * recorded with the trailing '/' that `create_dir_if_not_exist` gives it.
 */
module FsModel {
  import opened Text

  type Bytes = seq<bv8>

  /** File contents by path, and the set of directories that exist. */
  datatype FsState = FsState(files: map<string, Bytes>, dirs: set<string>)

  // ---------------------------------------------------------------------------
  // create_dir_if_not_exist

  /** `''.join(f"{d}/" for d in segs)`. */
  function SlashJoined(segs: seq<string>): string {
    if segs == [] then "" else segs[0] + "/" + SlashJoined(segs[1..])
  }

  /** The paths `create_dir_if_not_exist(path)` tests and creates, in order: the i-th joins the first i+1 segments. */
  function DirCandidates(path: string): (cs: seq<string>)
    ensures |cs| == |Split(path, "/")|
    ensures forall i :: 0 <= i < |cs| ==> cs[i] == SlashJoined(Split(path, "/")[..i + 1])
  {
    var segs := Split(path, "/");
    seq(|segs|, i requires 0 <= i < |segs| => SlashJoined(segs[..i + 1]))
  }

  /** `os.mkdir(c)` raises FileExistsError when a file already has that name. */
  predicate MkdirBlocked(files: map<string, Bytes>, c: string) {
    |c| > 0 && c[..|c| - 1] in files
  }

  /** The loop of `create_dir_if_not_exist`: skip what `isdir` finds, `mkdir` the rest, stop at the first `mkdir` that raises. */
  function MakeDirs(st: FsState, cands: seq<string>): (r: (FsState, bool))
    decreases |cands|
    ensures r.0.files == st.files
    ensures st.dirs <= r.0.dirs
    ensures forall c :: c in r.0.dirs ==> c in st.dirs || c in cands
  {
    if cands == [] then (st, true)
    else if cands[0] in st.dirs then MakeDirs(st, cands[1..])
    else if MkdirBlocked(st.files, cands[0]) then (st, false)
    else MakeDirs(FsState(st.files, st.dirs + {cands[0]}), cands[1..])
  }

  // ---------------------------------------------------------------------------
  // Properties of the candidates

  lemma {:induction false} SlashJoinedAppend(segs: seq<string>, x: string)
    ensures SlashJoined(segs + [x]) == SlashJoined(segs) + x + "/"
    decreases |segs|
  {
    if segs != [] {
      assert (segs + [x])[1..] == segs[1..] + [x];
      SlashJoinedAppend(segs[1..], x);
    } else {
      assert SlashJoined([x]) == x + "/" + SlashJoined([]);
    }
  }

  lemma {:induction false} SlashJoinedIsJoin(segs: seq<string>)
    requires |segs| >= 1
    ensures SlashJoined(segs) == JoinWith(segs, "/") + "/"
    decreases |segs|
  {
    if |segs| > 1 {
      SlashJoinedIsJoin(segs[1..]);
    }
  }

  /** Each candidate ends in '/', extends the one before it, and the last one is the whole path followed by '/'. */
  lemma CandidatesChain(path: string)
    ensures var cs := DirCandidates(path);
      && (forall i :: 0 <= i < |cs| ==> |cs[i]| > 0 && cs[i][|cs[i]| - 1] == '/')
      && (forall i :: 0 <= i < |cs| - 1 ==> cs[i] < cs[i + 1])
      && cs[|cs| - 1] == path + "/"
  {
    var segs := Split(path, "/");
    var cs := DirCandidates(path);
    forall i | 0 <= i < |cs| ensures |cs[i]| > 0 && cs[i][|cs[i]| - 1] == '/' {
      assert segs[..i + 1] == segs[..i] + [segs[i]];
      SlashJoinedAppend(segs[..i], segs[i]);
    }
    forall i | 0 <= i < |cs| - 1 ensures cs[i] < cs[i + 1] {
      assert segs[..i + 2] == segs[..i + 1] + [segs[i + 1]];
      SlashJoinedAppend(segs[..i + 1], segs[i + 1]);
    }
    assert segs[..|cs|] == segs;
    SlashJoinedIsJoin(segs);
    SplitJoin(path, "/");
  }

  /** Every candidate is a prefix of the whole path followed by '/'. */
  lemma CandidatesArePrefixes(path: string)
    ensures forall c :: c in DirCandidates(path) ==> c <= path + "/"
  {
    var cs := DirCandidates(path);
    CandidatesChain(path);
    forall c | c in cs ensures c <= path + "/" {
      var i :| 0 <= i < |cs| && cs[i] == c;
      ChainBelowLast(cs, i);
    }
  }

  lemma {:induction false} ChainBelowLast(cs: seq<string>, i: nat)
    requires i < |cs|
    requires forall j :: 0 <= j < |cs| - 1 ==> cs[j] < cs[j + 1]
    ensures cs[i] <= cs[|cs| - 1]
    decreases |cs| - i
  {
    if i < |cs| - 1 {
      ChainBelowLast(cs, i + 1);
    }
  }

  // ---------------------------------------------------------------------------
  // Properties of MakeDirs

  /** The chain succeeds exactly when no missing candidate is blocked by a file of the same name. */
  lemma {:induction false} MakeDirsOkIff(st: FsState, cands: seq<string>)
    ensures MakeDirs(st, cands).1 <==> forall i :: 0 <= i < |cands| ==> cands[i] in st.dirs || !MkdirBlocked(st.files, cands[i])
    decreases |cands|
  {
    if cands != [] {
      if cands[0] in st.dirs {
        MakeDirsOkIff(st, cands[1..]);
      } else if !MkdirBlocked(st.files, cands[0]) {
        var st1 := FsState(st.files, st.dirs + {cands[0]});
        MakeDirsOkIff(st1, cands[1..]);
        assert forall i :: 1 <= i < |cands| ==> cands[1..][i - 1] == cands[i];
      }
    }
  }

  /** After a successful chain every candidate exists, and nothing else was created. */
  lemma {:induction false} MakeDirsCreatesAll(st: FsState, cands: seq<string>)
    requires MakeDirs(st, cands).1
    ensures MakeDirs(st, cands).0.dirs == st.dirs + set c | c in cands
    decreases |cands|
  {
    if cands != [] {
      if cands[0] in st.dirs {
        MakeDirsCreatesAll(st, cands[1..]);
      } else {
        MakeDirsCreatesAll(FsState(st.files, st.dirs + {cands[0]}), cands[1..]);
      }
      assert forall c :: c in cands <==> c == cands[0] || c in cands[1..];
    }
  }

  /** Running the chain a second time changes nothing and reports the same outcome. */
  lemma MakeDirsIdempotent(st: FsState, cands: seq<string>)
    ensures MakeDirs(MakeDirs(st, cands).0, cands) == MakeDirs(st, cands)
  {
    var r := MakeDirs(st, cands);
    MakeDirsFromBetween(st, cands, r.0.dirs);
    assert FsState(st.files, r.0.dirs) == r.0;
  }

  /** Starting from any directory set between the initial one and the final one leads to the same end. */
  lemma {:induction false} MakeDirsFromBetween(st: FsState, cands: seq<string>, between: set<string>)
    requires st.dirs <= between <= MakeDirs(st, cands).0.dirs
    ensures MakeDirs(FsState(st.files, between), cands) == MakeDirs(st, cands)
    decreases |cands|
  {
    var s := FsState(st.files, between);
    if cands == [] {
      assert between == st.dirs;
    } else if cands[0] in st.dirs {
      MakeDirsFromBetween(st, cands[1..], between);
    } else if MkdirBlocked(st.files, cands[0]) {
      assert between == st.dirs;
    } else {
      var st1 := FsState(st.files, st.dirs + {cands[0]});
      if cands[0] in between {
        MakeDirsFromBetween(st1, cands[1..], between);
      } else {
        MakeDirsFromBetween(st1, cands[1..], between + {cands[0]});
      }
    }
  }

  /** When every candidate exists already, the chain creates nothing and succeeds. */
  lemma {:induction false} MakeDirsNothingMissing(st: FsState, cands: seq<string>)
    requires forall c :: c in cands ==> c in st.dirs
    ensures MakeDirs(st, cands) == (st, true)
    decreases |cands|
  {
    if cands != [] {
      assert cands[0] in cands;
      MakeDirsNothingMissing(st, cands[1..]);
    }
  }

  // ---------------------------------------------------------------------------
  // move_file

  /**
   * What `move_file(src, dst)` ends in, with a rename that refuses to
   * overwrite another file; a rename of a file onto its own path succeeds
   * and changes nothing.
   */
  datatype MoveOutcome =
    | Moved              // the rename succeeded
    | DuplicateRemoved   // the destination existed with the same digest: the source was removed
    | CollisionKept      // the destination existed with another digest: nothing happened
    | SourceMissing      // the rename raised FileNotFoundError, which move_file does not catch

  function MoveOutcomeOf(files: map<string, Bytes>, src: string, dst: string, sha1: Bytes -> string): MoveOutcome {
    if src !in files then SourceMissing
    else if dst !in files || src == dst then Moved
    else if sha1(files[src]) == sha1(files[dst]) then DuplicateRemoved
    else CollisionKept
  }

  /** The files after `move_file` has ended in `outcome`. */
  function AfterMove(files: map<string, Bytes>, src: string, dst: string, outcome: MoveOutcome): map<string, Bytes>
    requires outcome != SourceMissing ==> src in files
  {
    match outcome
    case Moved => (files - {src})[dst := files[src]]
    case DuplicateRemoved => files - {src}
    case CollisionKept => files
    case SourceMissing => files
  }

  /** What each outcome does to the source and the destination, and that no other path changes. */
  lemma MoveEffect(files: map<string, Bytes>, src: string, dst: string, sha1: Bytes -> string)
    ensures var o := MoveOutcomeOf(files, src, dst, sha1);
      var after := AfterMove(files, src, dst, o);
      && (o == Moved ==> src in files && dst in after && after[dst] == files[src] && (src != dst ==> src !in after))
      && (o == Moved && src == dst ==> after == files)
      && (o == DuplicateRemoved ==> src != dst && src in files && dst in files && sha1(files[src]) == sha1(files[dst]) &&
                                    src !in after && dst in after && after[dst] == files[dst])
      && (o == CollisionKept || o == SourceMissing ==> after == files)
      && (forall p :: p != src && p != dst ==> (p in after <==> p in files) && (p in files ==> after[p] == files[p]))
  {
  }

  /** When equal digests of the source and the destination mean equal contents, no content is lost: each content present before is present after. */
  lemma MoveKeepsContents(files: map<string, Bytes>, src: string, dst: string, sha1: Bytes -> string)
    requires src in files && dst in files && sha1(files[src]) == sha1(files[dst]) ==> files[src] == files[dst]
    ensures var after := AfterMove(files, src, dst, MoveOutcomeOf(files, src, dst, sha1));
      forall p :: p in files ==> files[p] in after.Values
  {
    var o := MoveOutcomeOf(files, src, dst, sha1);
    var after := AfterMove(files, src, dst, o);
    forall p | p in files ensures files[p] in after.Values {
      if p == src && o == Moved {
        assert after[dst] == files[p];
      } else if p == src && o == DuplicateRemoved {
        assert after[dst] == files[dst];
      } else {
        assert after[p] == files[p];
      }
    }
  }

  /** Moving a file onto its own path succeeds and leaves every file as it was. */
  lemma MoveOntoItself(files: map<string, Bytes>, f: string, sha1: Bytes -> string)
    requires f in files
    ensures MoveOutcomeOf(files, f, f, sha1) == Moved
    ensures AfterMove(files, f, f, Moved) == files
  {
  }

  /**
   * Two files with the same content moved to one destination in turn: the
   * first is renamed there, the second is removed as a duplicate.
   */
  lemma SameContentSecondRemoved(files: map<string, Bytes>, f1: string, f2: string, dst: string, sha1: Bytes -> string)
    requires f1 in files && f2 in files && files[f1] == files[f2]
    requires f1 != f2 && f1 != dst && f2 != dst && dst !in files
    ensures var o1 := MoveOutcomeOf(files, f1, dst, sha1);
      var files1 := AfterMove(files, f1, dst, o1);
      var o2 := MoveOutcomeOf(files1, f2, dst, sha1);
      && o1 == Moved && o2 == DuplicateRemoved
      && AfterMove(files1, f2, dst, o2) == (files - {f1, f2})[dst := files[f1]]
  {
    var files1 := AfterMove(files, f1, dst, Moved);
    assert files1 - {f2} == (files - {f1, f2})[dst := files[f1]];
  }

  /**
   * Two files whose digests differ moved to one destination in turn: the
   * first is renamed there, the second stays at its own path with its
   * content.
   */
  lemma DifferentContentBothKept(files: map<string, Bytes>, f1: string, f2: string, dst: string, sha1: Bytes -> string)
    requires f1 in files && f2 in files && sha1(files[f1]) != sha1(files[f2])
    requires f1 != f2 && f1 != dst && f2 != dst && dst !in files
    ensures var o1 := MoveOutcomeOf(files, f1, dst, sha1);
      var files1 := AfterMove(files, f1, dst, o1);
      var o2 := MoveOutcomeOf(files1, f2, dst, sha1);
      var files2 := AfterMove(files1, f2, dst, o2);
      && o1 == Moved && o2 == CollisionKept
      && files2 == (files - {f1})[dst := files[f1]]
      && files2[f2] == files[f2]
  {
  }

  // ---------------------------------------------------------------------------
  // get_hash

  const ChunkSize: nat := 1024

  function Min(a: nat, b: nat): nat {
    if a <= b then a else b
  }

  /** The successive results of `read(1024)` on a file holding `s`, up to and including the first empty one. */
  function ReadChunks(s: Bytes): (cs: seq<Bytes>)
    decreases |s|
  {
    if s == [] then [[]] else [s[..Min(ChunkSize, |s|)]] + ReadChunks(s[Min(ChunkSize, |s|)..])
  }

  function Flatten(cs: seq<Bytes>): Bytes {
    if cs == [] then [] else cs[0] + Flatten(cs[1..])
  }

  /** The reads reassemble the content; each holds at most 1024 bytes; only the last is empty; there is one read per started kilobyte plus the final empty one. */
  lemma {:induction false} ReadChunksSpec(s: Bytes)
    ensures var cs := ReadChunks(s);
      && Flatten(cs) == s
      && |cs| == (|s| + ChunkSize - 1) / ChunkSize + 1
      && cs[|cs| - 1] == []
      && (forall i :: 0 <= i < |cs| ==> |cs[i]| <= ChunkSize)
      && (forall i :: 0 <= i < |cs| - 1 ==> cs[i] != [])
      && (forall i :: 0 <= i < |cs| - 2 ==> |cs[i]| == ChunkSize)
    decreases |s|
  {
    if s != [] {
      var n := Min(ChunkSize, |s|);
      ReadChunksSpec(s[n..]);
      assert s == s[..n] + s[n..];
      var cs := ReadChunks(s);
      var rest := ReadChunks(s[n..]);
      assert cs == [s[..n]] + rest;
      assert forall i :: 1 <= i < |cs| ==> cs[i] == rest[i - 1];
      if |s| <= ChunkSize {
        assert s[n..] == [];
      }
    }
  }
}
