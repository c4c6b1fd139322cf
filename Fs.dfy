/**
 * The sorter's file-system operations as methods on a mutable file
 * system: `get_hash` (a loop of 1024-byte reads fed into a SHA-1 object),
 * `create_dir_if_not_exist` (a loop of `isdir`/`mkdir` over the path's
 * prefixes) and `move_file` (a rename that refuses to overwrite, then a
 * digest comparison).  Each method is proved to follow the function of
 * module FsModel that specifies it.
 */
module Fs {
  import opened Wrappers
  import opened Text
  import opened FsModel

  /** An open file: its content and the read position. */
  class FileReader {
    const content: Bytes
    var pos: nat

    ghost predicate Valid()
      reads this
    {
      pos <= |content|
    }

    constructor (content: Bytes)
      ensures Valid() && this.content == content && pos == 0
    {
      this.content := content;
      pos := 0;
    }

    /** `file.read(size)`: up to `size` bytes from the position on; empty at the end of the file. */
    method Read(size: nat) returns (chunk: Bytes)
      requires Valid()
      modifies this
      ensures Valid()
      ensures pos == Min(old(pos) + size, |content|)
      ensures chunk == content[old(pos)..pos]
    {
      var end := Min(pos + size, |content|);
      chunk := content[pos..end];
      pos := end;
    }
  }

  /** A `hashlib.sha1()` object, seen through what it has been fed: the digest of the concatenated updates. */
  class Hasher {
    var fed: Bytes

    constructor ()
      ensures fed == []
    {
      fed := [];
    }

    /** `h.update(chunk)`. */
    method Update(chunk: Bytes)
      modifies this
      ensures fed == old(fed) + chunk
    {
      fed := fed + chunk;
    }

    /** `h.hexdigest()`, with the digest function `sha1` given. */
    method HexDigest(sha1: Bytes -> string) returns (d: string)
      ensures d == sha1(fed)
    {
      d := sha1(fed);
    }
  }

  datatype RenameResult = Renamed | DestinationExists | SourceNotFound

  class FileSystem {
    var files: map<string, Bytes>
    var dirs: set<string>

    function State(): FsState
      reads this
    {
      FsState(files, dirs)
    }

    constructor (st: FsState)
      ensures State() == st
    {
      files := st.files;
      dirs := st.dirs;
    }

    /** `os.path.isdir(p)`. */
    method IsDir(p: string) returns (b: bool)
      ensures b == (p in dirs)
    {
      b := p in dirs;
    }

    /** `os.mkdir(p)`; false stands for the FileExistsError raised when the name is taken. */
    method MakeDir(p: string) returns (ok: bool)
      modifies this
      ensures ok == (p !in old(dirs) && !MkdirBlocked(old(files), p))
      ensures files == old(files)
      ensures dirs == if ok then old(dirs) + {p} else old(dirs)
    {
      ok := p !in dirs && !MkdirBlocked(files, p);
      if ok {
        dirs := dirs + {p};
      }
    }

    /** `open(p, 'rb')`; None stands for the FileNotFoundError of a missing file. */
    method Open(p: string) returns (r: Option<FileReader>)
      ensures r.None? <==> p !in files
      ensures r.Some? ==> fresh(r.value) && r.value.Valid() && r.value.content == files[p] && r.value.pos == 0
    {
      if p in files {
        var reader := new FileReader(files[p]);
        r := Some(reader);
      } else {
        r := None;
      }
    }

    /**
     * `get_hash(path)`: read the file 1024 bytes at a time, feeding each
     * read to the hasher, until a read comes back empty; `chunks` records
     * the reads.  None stands for the error of opening a missing file.
     */
    method GetHash(path: string, sha1: Bytes -> string) returns (digest: Option<string>, ghost chunks: seq<Bytes>)
      ensures path !in files ==> digest == None
      ensures path in files ==> digest == Some(sha1(files[path])) && chunks == ReadChunks(files[path])
    {
      var h := new Hasher();
      var handle := Open(path);
      chunks := [];
      if handle.None? {
        return None, chunks;
      }
      var file := handle.value;
      var chunk: Option<Bytes> := None;   // the initial `chunk = 0`, which differs from b''
      while chunk != Some([])
        invariant file.Valid() && file.content == files[path]
        invariant h.fed == file.content[..file.pos]
        invariant chunk != Some([]) ==> chunks + ReadChunks(file.content[file.pos..]) == ReadChunks(file.content)
        invariant chunk == Some([]) ==> chunks == ReadChunks(file.content) && file.pos == |file.content|
        decreases |file.content| - file.pos, if chunk == Some([]) then 0 else 1
      {
        ghost var before := file.pos;
        var c := file.Read(ChunkSize);
        h.Update(c);
        ReadInvariantStep(file.content, chunks, before);
        chunks := chunks + [c];
        chunk := Some(c);
      }
      var d := h.HexDigest(sha1);
      assert file.content[..file.pos] == file.content;
      digest := Some(d);
    }

    /**
     * `os.rename(src, dst)` where another existing file at `dst` makes it
     * raise FileExistsError; renaming a file onto its own path succeeds
     * and changes nothing.
     */
    method Rename(src: string, dst: string) returns (r: RenameResult)
      modifies this
      ensures r == (if src !in old(files) then SourceNotFound
                    else if dst in old(files) && src != dst then DestinationExists
                    else Renamed)
      ensures files == (if r == Renamed then (old(files) - {src})[dst := old(files)[src]] else old(files))
      ensures src == dst ==> files == old(files)
      ensures dirs == old(dirs)
    {
      if src !in files {
        r := SourceNotFound;
      } else if dst in files && src != dst {
        r := DestinationExists;
      } else {
        files := (files - {src})[dst := files[src]];
        r := Renamed;
      }
    }

    /** `os.remove(p)`; false stands for the FileNotFoundError of a missing file. */
    method Remove(p: string) returns (ok: bool)
      modifies this
      ensures ok == (p in old(files))
      ensures files == old(files) - {p} && dirs == old(dirs)
    {
      ok := p in files;
      files := files - {p};
    }

    /** `create_dir_if_not_exist(path)`; false stands for the exception of a `mkdir` that failed, which ends the loop. */
    method CreateDirIfNotExist(path: string) returns (ok: bool)
      modifies this
      ensures (State(), ok) == MakeDirs(old(State()), DirCandidates(path))
    {
      var segs := Split(path, "/");
      ghost var cands := DirCandidates(path);
      var i := 0;
      while i < |segs|
        invariant 0 <= i <= |segs|
        invariant MakeDirs(old(State()), cands) == MakeDirs(State(), cands[i..])
      {
        var dirToCreate := SlashJoined(segs[..i + 1]);
        assert dirToCreate == cands[i];
        assert cands[i..][1..] == cands[i + 1..];
        var isDir := IsDir(dirToCreate);
        if !isDir {
          var made := MakeDir(dirToCreate);
          if !made {
            return false;
          }
        }
        i := i + 1;
      }
      ok := true;
    }

    /**
     * `move_file(f, f_new)`: rename; on FileExistsError compare the two
     * digests and remove the source when they agree.
     */
    method MoveFile(src: string, dst: string, sha1: Bytes -> string) returns (outcome: MoveOutcome)
      modifies this
      ensures outcome == MoveOutcomeOf(old(files), src, dst, sha1)
      ensures files == AfterMove(old(files), src, dst, outcome) && dirs == old(dirs)
    {
      var r := Rename(src, dst);
      match r
      case SourceNotFound =>
        outcome := SourceMissing;
      case Renamed =>
        outcome := Moved;
      case DestinationExists =>
        var srcDigest, dstDigest;
        ghost var srcChunks, dstChunks;
        srcDigest, srcChunks := GetHash(src, sha1);
        dstDigest, dstChunks := GetHash(dst, sha1);
        if srcDigest == dstDigest {
          var removed := Remove(src);
          outcome := DuplicateRemoved;
        } else {
          outcome := CollisionKept;
        }
    }
  }

  /** One `read(1024)` keeps the loop's account: the hasher has seen the bytes read so far, and the reads so far followed by the reads still to come are all the reads. */
  lemma ReadInvariantStep(s: Bytes, chunks: seq<Bytes>, pos: nat)
    requires pos <= |s|
    requires chunks + ReadChunks(s[pos..]) == ReadChunks(s)
    ensures var end := Min(pos + ChunkSize, |s|);
      && s[..pos] + s[pos..end] == s[..end]
      && (s[pos..end] == [] <==> pos == |s|)
      && (pos == |s| ==> chunks + [s[pos..end]] == ReadChunks(s))
      && (pos < |s| ==> chunks + [s[pos..end]] + ReadChunks(s[end..]) == ReadChunks(s))
  {
    var end := Min(pos + ChunkSize, |s|);
    SlicesJoin(s, pos, end);
    if pos < |s| {
      ReadFrom(s, pos);
      RegroupReads(chunks, s[pos..end], ReadChunks(s[end..]));
    } else {
      assert s[pos..] == [];
    }
  }

  lemma SlicesJoin(s: Bytes, i: nat, j: nat)
    requires i <= j <= |s|
    ensures s[..i] + s[i..j] == s[..j]
  {
  }

  /** The reads from a position before the end: one chunk of at most 1024 bytes, then the reads from after it. */
  lemma ReadFrom(s: Bytes, pos: nat)
    requires pos < |s|
    ensures var end := Min(pos + ChunkSize, |s|);
      ReadChunks(s[pos..]) == [s[pos..end]] + ReadChunks(s[end..])
  {
    var end := Min(pos + ChunkSize, |s|);
    assert s[pos..][..Min(ChunkSize, |s| - pos)] == s[pos..end];
    assert s[pos..][Min(ChunkSize, |s| - pos)..] == s[end..];
  }

  lemma RegroupReads(chunks: seq<Bytes>, c: Bytes, rest: seq<Bytes>)
    ensures chunks + ([c] + rest) == chunks + [c] + rest
  {
  }


}
