/**
 * One iteration of the sorter's main loop over the walked files: decide
 * the date, create the date folder, move the file.  Every exception the
 * loop's `except Exception` catches ends the iteration as `Failed`.
 */
module Pipeline {
  import opened Text
  import opened Dates
  import opened ExifDate
  import opened Resolve
  import opened Placement
  import opened FsModel
  import opened Fs

  datatype FileError =
    | ResolveFailed(reason: ErrorReason)   // raised while choosing the date
    | MkdirFailed                          // raised by create_dir_if_not_exist
    | SourceVanished                       // FileNotFoundError from the rename

  /** How the iteration for one walked file ends. */
  datatype FileOutcome =
    | PassedOver                 // not an image
    | Unplaced(why: SkipReason)  // `continue` before any file-system change
    | Failed(cause: FileError)
    | Relocated(dest: string)
    | Deduplicated(dest: string)
    | LeftInPlace(dest: string)

  function OutcomeOf(o: MoveOutcome, dest: string): FileOutcome {
    match o
    case Moved => Relocated(dest)
    case DuplicateRemoved => Deduplicated(dest)
    case CollisionKept => LeftInPlace(dest)
    case SourceMissing => Failed(SourceVanished)
  }

  /** The file-system state and the outcome after the main loop has handled `name` in directory `root`. */
  function Process(st: FsState, root: string, name: string, outDir: string, isImage: bool, exif: ExifOutput,
                   fuzzy: string -> FuzzyResult, now: DateTime, sha1: Bytes -> string): (FsState, FileOutcome)
    requires !now.Aware()
  {
    match ResolveDate(isImage, ExifCreationDate(exif), name, fuzzy, now)
    case NotAnImage => (st, PassedOver)
    case Skipped(why) => (st, Unplaced(why))
    case Errored(e) => (st, Failed(ResolveFailed(e)))
    case Place(d) => PlaceInto(st, JoinPath(root, name), DestinationFolder(outDir, d), name, sha1)
  }

  /** Create the folder chain, then move file `f` into the folder under its unchanged `name`. */
  function PlaceInto(st: FsState, f: string, folder: string, name: string, sha1: Bytes -> string): (FsState, FileOutcome) {
    var made := MakeDirs(st, DirCandidates(folder));
    if !made.1 then (made.0, Failed(MkdirFailed))
    else
      var dest := JoinPath(folder, name);
      var o := MoveOutcomeOf(made.0.files, f, dest, sha1);
      (FsState(AfterMove(made.0.files, f, dest, o), made.0.dirs), OutcomeOf(o, dest))
  }

  /** The loop body of `main` for one walked file (lines 109 to 141 of the script). */
  method ProcessFile(fs: FileSystem, root: string, name: string, outDir: string, isImage: bool, exif: ExifOutput,
                     fuzzy: string -> FuzzyResult, now: DateTime, sha1: Bytes -> string) returns (outcome: FileOutcome)
    requires !now.Aware()
    modifies fs
    ensures (fs.State(), outcome) == Process(old(fs.State()), root, name, outDir, isImage, exif, fuzzy, now, sha1)
  {
    var f := JoinPath(root, name);
    var creationDate := ExifCreationDate(exif);
    var verdict := ResolveDate(isImage, creationDate, name, fuzzy, now);
    match verdict
    case NotAnImage =>
      outcome := PassedOver;
    case Skipped(why) =>
      outcome := Unplaced(why);
    case Errored(e) =>
      outcome := Failed(ResolveFailed(e));
    case Place(d) =>
      var selectedFolder := DestinationFolder(outDir, d);
      outcome := PlaceFile(fs, f, selectedFolder, name, sha1);
  }

  /** Lines 131 to 137 of the script: create the date folder, then move the file into it. */
  method PlaceFile(fs: FileSystem, f: string, selectedFolder: string, name: string, sha1: Bytes -> string)
    returns (outcome: FileOutcome)
    modifies fs
    ensures (fs.State(), outcome) == PlaceInto(old(fs.State()), f, selectedFolder, name, sha1)
  {
    var ok := fs.CreateDirIfNotExist(selectedFolder);
    if !ok {
      return Failed(MkdirFailed);
    }
    var fNew := JoinPath(selectedFolder, name);
    var o := fs.MoveFile(f, fNew, sha1);
    outcome := OutcomeOf(o, fNew);
  }

  // ---------------------------------------------------------------------------
  // Properties

  /** A file that is not placed leaves the file system exactly as it was. */
  lemma UnplacedChangesNothing(st: FsState, root: string, name: string, outDir: string, isImage: bool,
                               exif: ExifOutput, fuzzy: string -> FuzzyResult, now: DateTime, sha1: Bytes -> string)
    requires !now.Aware()
    requires !ResolveDate(isImage, ExifCreationDate(exif), name, fuzzy, now).Place?
    ensures Process(st, root, name, outDir, isImage, exif, fuzzy, now, sha1).0 == st
  {
  }

  /** Placing a file only adds directories, and only those of the folder's chain. */
  lemma PlacedDirectories(st: FsState, f: string, folder: string, name: string, sha1: Bytes -> string)
    ensures var r := PlaceInto(st, f, folder, name, sha1);
      && st.dirs <= r.0.dirs
      && (forall c :: c in r.0.dirs ==> c in st.dirs || c in DirCandidates(folder))
  {
  }

  /**
   * Placing a file changes no file other than the walked one and its
   * destination, and a file that moves lands at the destination path with
   * its content.
   */
  lemma PlacedFiles(st: FsState, f: string, folder: string, name: string, sha1: Bytes -> string)
    ensures var r := PlaceInto(st, f, folder, name, sha1);
      var dest := JoinPath(folder, name);
      && (forall p :: p != f && p != dest ==> (p in r.0.files <==> p in st.files) && (p in st.files ==> r.0.files[p] == st.files[p]))
      && (r.1 == Relocated(dest) ==> dest in r.0.files && r.0.files[dest] == st.files[f] && (f != dest ==> f !in r.0.files))
      && (r.1 == Relocated(dest) && f == dest ==> r.0.files == st.files)
      && (r.1.Relocated? || r.1.Deduplicated? || r.1.LeftInPlace? ==> r.1.dest == dest)
  {
    var made := MakeDirs(st, DirCandidates(folder));
    if made.1 {
      MoveEffect(st.files, f, JoinPath(folder, name), sha1);
    }
  }

  /** A second file of the same day finds its whole folder chain in place: no directory is created for it. */
  lemma SameDayCreatesNoMoreDirectories(st: FsState, outDir: string, d1: DateTime, d2: DateTime, files: map<string, Bytes>)
    requires SameDay(d1, d2)
    requires MakeDirs(st, DirCandidates(DestinationFolder(outDir, d1))).1
    ensures var st1 := MakeDirs(st, DirCandidates(DestinationFolder(outDir, d1))).0;
      MakeDirs(FsState(files, st1.dirs), DirCandidates(DestinationFolder(outDir, d2))) == (FsState(files, st1.dirs), true)
  {
    var cands := DirCandidates(DestinationFolder(outDir, d1));
    SameFolderIffSameDay(outDir, d1, d2);
    MakeDirsCreatesAll(st, cands);
    MakeDirsNothingMissing(FsState(files, MakeDirs(st, cands).0.dirs), cands);
  }

  /**
   * A placed file whose folder chain can be created and whose destination
   * is free is renamed there: its old path is gone and the destination
   * holds its content; no other file changes.
   */
  lemma PlacedIntoFreeDestination(st: FsState, root: string, name: string, outDir: string, isImage: bool,
                                  exif: ExifOutput, fuzzy: string -> FuzzyResult, now: DateTime, sha1: Bytes -> string, d: DateTime)
    requires !now.Aware()
    requires ResolveDate(isImage, ExifCreationDate(exif), name, fuzzy, now) == Place(d)
    requires MakeDirs(st, DirCandidates(DestinationFolder(outDir, d))).1
    requires JoinPath(root, name) in st.files && DestinationPath(outDir, d, name) !in st.files
    ensures var r := Process(st, root, name, outDir, isImage, exif, fuzzy, now, sha1);
      var f := JoinPath(root, name);
      var dest := DestinationPath(outDir, d, name);
      r.1 == Relocated(dest) && r.0.files == (st.files - {f})[dest := st.files[f]]
  {
  }

  /** The chain for `out/2010/10/10` can be created when the only file is `in/photo.jpg`. */
  lemma PhotoFolderCreatable(st: FsState, folder: string)
    requires folder == "out/2010/10/10"
    requires st.files.Keys == {"in/photo.jpg"}
    ensures MakeDirs(st, DirCandidates(folder)).1
  {
    var cands := DirCandidates(folder);
    CandidatesArePrefixes(folder);
    forall i | 0 <= i < |cands| ensures !MkdirBlocked(st.files, cands[i]) {
      var c := cands[i];
      assert c in cands;
      if |c| > 1 {
        assert c[0] == folder[0];
      }
    }
    MakeDirsOkIff(st, cands);
  }

  lemma PhotoSourcePath(root: string, name: string)
    requires root == "in" && name == "photo.jpg"
    ensures JoinPath(root, name) == "in/photo.jpg"
  {
  }

  /**
   * `in/photo.jpg`, an image whose metadata creation date is 2010:10:10
   * 10:10:10, with output directory `out/`, alone in an otherwise empty file
   * system: it ends up at `out/2010/10/10/photo.jpg` with its content.
   */
  lemma PhotoEndToEnd(st: FsState, root: string, name: string, outDir: string, src: string, dest: string, exif: ExifOutput,
                      fuzzy: string -> FuzzyResult, now: DateTime, sha1: Bytes -> string, content: Bytes, d: DateTime)
    requires root == "in" && name == "photo.jpg" && outDir == "out/"
    requires src == "in/photo.jpg" && dest == "out/2010/10/10/photo.jpg"
    requires st.files == map[src := content]
    requires d.year == 2010 && d.month == 10 && d.day == 10 && d.hour == 10 && d.minute == 10 && d.second == 10
    requires !d.Aware() && ExifCreationDate(exif) == Found(d)
    requires !now.Aware() && !LaterThan(d, now)
    ensures var r := Process(st, root, name, outDir, true, exif, fuzzy, now, sha1);
      r.1 == Relocated(dest) && r.0.files == map[dest := content]
  {
    assert ResolveDate(true, ExifCreationDate(exif), name, fuzzy, now) == Place(d);
    ProcessPlaces(st, root, name, outDir, true, exif, fuzzy, now, sha1, d);
    DestinationExample(outDir, name, d);
    PhotoSourcePath(root, name);
    PhotoPlacement(st, JoinPath(root, name), DestinationFolder(outDir, d), name, dest, content, sha1);
  }

  /**
   * The effect of each way a placement of `f` at `dest` can end, where
   * `chain` is the folder chain: the file is renamed to `dest` with its
   * content, or removed as a duplicate of the file already there, or left
   * in place beside a different file, or the folder chain or the rename
   * raises and no file changes.  The directories gained are only those of
   * the chain, and all of them unless a `mkdir` failed.
   */
  ghost predicate PlacementEnding(st: FsState, after: FsState, o: FileOutcome, f: string, dest: string,
                                  chain: set<string>, sha1: Bytes -> string)
  {
    && (o == Relocated(dest) || o == Deduplicated(dest) || o == LeftInPlace(dest) ||
        o == Failed(MkdirFailed) || o == Failed(SourceVanished))
    && (o.Relocated? ==> f in st.files && dest in after.files && after.files[dest] == st.files[f] &&
                         (f != dest ==> f !in after.files))
    && (o.Deduplicated? ==> f != dest && f in st.files && dest in st.files && f !in after.files &&
                            dest in after.files && after.files[dest] == st.files[dest] &&
                            sha1(st.files[f]) == sha1(st.files[dest]))
    && (o.LeftInPlace? || o.Failed? ==> after.files == st.files)
    && st.dirs <= after.dirs <= st.dirs + chain
    && (o != Failed(MkdirFailed) ==> after.dirs == st.dirs + chain)
  }

  /** Where a placed file ends, as PlacementEnding spells out for its walked path, its destination and its folder chain. */
  lemma PlacedFileLands(st: FsState, root: string, name: string, outDir: string, isImage: bool,
                        exif: ExifOutput, fuzzy: string -> FuzzyResult, now: DateTime, sha1: Bytes -> string, d: DateTime)
    requires !now.Aware()
    requires ResolveDate(isImage, ExifCreationDate(exif), name, fuzzy, now) == Place(d)
    ensures var r := Process(st, root, name, outDir, isImage, exif, fuzzy, now, sha1);
      PlacementEnding(st, r.0, r.1, JoinPath(root, name), DestinationPath(outDir, d, name),
                      (set c | c in DirCandidates(DestinationFolder(outDir, d))), sha1)
  {
    var f := JoinPath(root, name);
    var folder := DestinationFolder(outDir, d);
    ProcessPlaces(st, root, name, outDir, isImage, exif, fuzzy, now, sha1, d);
    var made := MakeDirs(st, DirCandidates(folder));
    if made.1 {
      MakeDirsCreatesAll(st, DirCandidates(folder));
      MoveEffect(st.files, f, JoinPath(folder, name), sha1);
    }
  }

  /** A placed file goes through PlaceInto with its walked path and its date folder. */
  lemma ProcessPlaces(st: FsState, root: string, name: string, outDir: string, isImage: bool,
                      exif: ExifOutput, fuzzy: string -> FuzzyResult, now: DateTime, sha1: Bytes -> string, d: DateTime)
    requires !now.Aware()
    requires ResolveDate(isImage, ExifCreationDate(exif), name, fuzzy, now) == Place(d)
    ensures Process(st, root, name, outDir, isImage, exif, fuzzy, now, sha1) ==
            PlaceInto(st, JoinPath(root, name), DestinationFolder(outDir, d), name, sha1)
  {
  }


  lemma PhotoPlacement(st: FsState, src: string, folder: string, name: string, dest: string, content: Bytes, sha1: Bytes -> string)
    requires src == "in/photo.jpg" && folder == "out/2010/10/10" && name == "photo.jpg" && dest == "out/2010/10/10/photo.jpg"
    requires st.files == map[src := content]
    ensures var r := PlaceInto(st, src, folder, name, sha1);
      r.1 == Relocated(dest) && r.0.files == map[dest := content]
  {
    PhotoFolderCreatable(st, folder);
    assert JoinPath(folder, name) == dest;
    assert dest !in st.files by {
      assert dest[0] != src[0];
    }
    assert (st.files - {src})[dest := content] == map[dest := content];
  }


}
