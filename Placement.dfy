/**
 * Where a file goes: `os.path.join(out_dir, strftime(date, "%Y/%m/%d"))`
 * for the folder and `os.path.join(folder, filename)` for the file.
 */
module Placement {
  import opened Text
  import opened Dates

  /** `os.path.join(a, b)` with '/' as separator: an absolute `b` replaces `a`; otherwise a '/' is added unless `a` is empty or already ends in one. */
  function JoinPath(a: string, b: string): string {
    if |b| > 0 && b[0] == '/' then b
    else if a == [] || a[|a| - 1] == '/' then a + b
    else a + "/" + b
  }

  /** The folder FOLDER_FORMAT gives a date, below the output directory. */
  function DestinationFolder(outDir: string, d: DateTime): string {
    JoinPath(outDir, FolderDate(d))
  }

  /** The destination of a file: its unchanged name inside the date folder. */
  function DestinationPath(outDir: string, d: DateTime, name: string): string {
    JoinPath(DestinationFolder(outDir, d), name)
  }

  /** `out_dir` as the prefix the join puts in front of a relative path. */
  function DirPrefix(outDir: string): string {
    if outDir == [] || outDir[|outDir| - 1] == '/' then outDir else outDir + "/"
  }

  /** The folder is the output directory followed by the zero-padded YYYY/MM/DD of the date. */
  lemma FolderShape(outDir: string, d: DateTime)
    ensures DestinationFolder(outDir, d) == DirPrefix(outDir) + FolderDate(d)
  {
    assert FolderDate(d)[0] == Pad4(d.year)[0];
  }

  /** A filename without '/' lands directly inside the date folder and is the last path component. */
  lemma PathShape(outDir: string, d: DateTime, name: string)
    requires !Contains(name, "/")
    ensures DestinationPath(outDir, d, name) == DestinationFolder(outDir, d) + "/" + name
    ensures var parts := Split(DestinationPath(outDir, d, name), "/"); parts[|parts| - 1] == name
  {
    var folder := DestinationFolder(outDir, d);
    FolderShape(outDir, d);
    var r := FolderDate(d);
    assert folder[|folder| - 1] == r[9] == Pad2(d.day)[1];
    if |name| > 0 {
      assert name[0..1] == [name[0]] && !OccursAt(name, "/", 0);
    }
    SplitLast(folder, '/', name);
  }

  /** Two dates share a folder exactly when they fall on the same calendar day. */
  lemma SameFolderIffSameDay(outDir: string, d1: DateTime, d2: DateTime)
    ensures DestinationFolder(outDir, d1) == DestinationFolder(outDir, d2) <==> SameDay(d1, d2)
  {
    FolderShape(outDir, d1);
    FolderShape(outDir, d2);
    var p := DirPrefix(outDir);
    if DestinationFolder(outDir, d1) == DestinationFolder(outDir, d2) {
      assert FolderDate(d1) == (p + FolderDate(d1))[|p|..];
      assert FolderDate(d2) == (p + FolderDate(d2))[|p|..];
    }
    FolderDateSameDay(d1, d2);
  }

  /** "photo.jpg" dated 2010:10:10 10:10:10 with output directory "out/" goes to "out/2010/10/10/photo.jpg". */
  lemma DestinationExample(outDir: string, name: string, d: DateTime)
    requires outDir == "out/" && name == "photo.jpg"
    requires d.year == 2010 && d.month == 10 && d.day == 10
    ensures DestinationFolder(outDir, d) == "out/2010/10/10"
    ensures DestinationPath(outDir, d, name) == "out/2010/10/10/photo.jpg"
  {
    FolderDate2010(d, FolderDate(d));
  }

  lemma FolderDate2010(d: DateTime, folder: string)
    requires d.year == 2010 && d.month == 10 && d.day == 10
    requires folder == FolderDate(d)
    ensures folder == "2010/10/10"
  {
    Pad2010();
  }

}
