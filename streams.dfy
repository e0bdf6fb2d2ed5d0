/** `stream_to_file` and `decompress_stream_to_file` of s3tethys/main.py: the
    loop that copies a readable stream into a local file chunk by chunk, and
    the choice of decoder and output path from the file name's suffix. */
module Streams {
  import opened Values

  // ---------------------------------------------------------------------------
  // Byte chunks

  /** The bytes of a sequence of chunks, in order. */
  function Concat(chunks: seq<seq<byte>>): seq<byte> {
    if chunks == [] then [] else Concat(chunks[..|chunks| - 1]) + chunks[|chunks| - 1]
  }

  lemma {:induction false} ConcatAppend(a: seq<seq<byte>>, b: seq<seq<byte>>)
    ensures Concat(a + b) == Concat(a) + Concat(b)
    decreases |b|
  {
    if b != [] {
      assert (a + b)[..|a + b| - 1] == a + b[..|b| - 1];
      ConcatAppend(a, b[..|b| - 1]);
    } else {
      assert a + b == a;
    }
  }

  /** The chunks before the first empty one. */
  function UntilEmpty(chunks: seq<seq<byte>>): (p: seq<seq<byte>>)
    ensures |p| <= |chunks|
    ensures forall i :: 0 <= i < |p| ==> p[i] == chunks[i] && p[i] != []
    ensures |p| < |chunks| ==> chunks[|p|] == []
  {
    if chunks == [] || chunks[0] == [] then [] else [chunks[0]] + UntilEmpty(chunks[1..])
  }

  /** A stream that never yields an empty chunk before its end is copied whole. */
  lemma {:induction false} UntilEmptyNoEmptyChunk(chunks: seq<seq<byte>>)
    requires forall i :: 0 <= i < |chunks| ==> chunks[i] != []
    ensures UntilEmpty(chunks) == chunks
    decreases |chunks|
  {
    if chunks != [] {
      UntilEmptyNoEmptyChunk(chunks[1..]);
    }
  }

  /** The chunks from position `cursor` on. */
  function Rest(chunks: seq<seq<byte>>, cursor: nat): seq<seq<byte>> {
    if cursor <= |chunks| then chunks[cursor..] else []
  }

  /** What a read at position `i` returns: the chunk there, or b'' past the end. */
  function ReadAt(chunks: seq<seq<byte>>, i: nat): seq<byte> {
    if i < |chunks| then chunks[i] else []
  }

  /** The bytes of one more chunk follow those of the chunks before it. */
  lemma ConcatPrefixStep(chunks: seq<seq<byte>>, k: nat)
    requires k < |chunks|
    ensures Concat(chunks[..k + 1]) == Concat(chunks[..k]) + chunks[k]
  {
    assert chunks[..k + 1][..k] == chunks[..k];
  }

  /** The `k`-th read from `cursor` on, when not empty, is the `k`-th chunk copied. */
  lemma CopiedAt(chunks: seq<seq<byte>>, cursor: nat, k: nat)
    requires k <= |UntilEmpty(Rest(chunks, cursor))| && ReadAt(chunks, cursor + k) != []
    ensures var copied := UntilEmpty(Rest(chunks, cursor));
      k < |copied| && copied[k] == ReadAt(chunks, cursor + k)
  {
    var rest := Rest(chunks, cursor);
    assert cursor + k < |chunks|;
    assert rest[k] == chunks[cursor + k];
  }

  /** Copying the `k`-th non-empty read from `cursor` on adds its bytes to the file. */
  lemma CopiedStep(chunks: seq<seq<byte>>, cursor: nat, k: nat)
    requires k <= |UntilEmpty(Rest(chunks, cursor))| && ReadAt(chunks, cursor + k) != []
    ensures var copied := UntilEmpty(Rest(chunks, cursor));
      && k < |copied| && copied[k] == ReadAt(chunks, cursor + k)
      && Concat(copied[..k + 1]) == Concat(copied[..k]) + ReadAt(chunks, cursor + k)
  {
    CopiedAt(chunks, cursor, k);
    ConcatPrefixStep(UntilEmpty(Rest(chunks, cursor)), k);
  }

  /** The first empty read ends the copy after exactly the chunks before it. */
  lemma CopiedEnd(chunks: seq<seq<byte>>, cursor: nat, k: nat)
    requires k <= |UntilEmpty(Rest(chunks, cursor))| && ReadAt(chunks, cursor + k) == []
    ensures k == |UntilEmpty(Rest(chunks, cursor))|
  {
  }

  lemma UpdateTwice<K, V>(m: map<K, V>, key: K, a: V, b: V)
    ensures m[key := a][key := b] == m[key := b]
  {
  }

  /** `n` copies of `x`. */
  function Repeat(x: int, n: nat): (r: seq<int>)
    ensures |r| == n && forall i :: 0 <= i < n ==> r[i] == x
  {
    if n == 0 then [] else Repeat(x, n - 1) + [x]
  }

  // ---------------------------------------------------------------------------
  // The stream and the local file system

  /** A readable stream (the body smart_open returns): `chunks` is what its
      successive `read` calls return; once they run out every read returns b''.
      `requested` records the size asked for by each read. */
  class ByteSource {
    const chunks: seq<seq<byte>>
    var cursor: nat
    var requested: seq<int>

    constructor (chunks: seq<seq<byte>>)
      ensures this.chunks == chunks && cursor == 0 && requested == []
    {
      this.chunks := chunks;
      cursor := 0;
      requested := [];
    }

    /** `read(size)` */
    method Read(size: int) returns (chunk: seq<byte>)
      modifies this
      ensures chunk == ReadAt(chunks, old(cursor))
      ensures cursor == old(cursor) + 1
      ensures requested == old(requested) + [size]
    {
      chunk := ReadAt(chunks, cursor);
      cursor := cursor + 1;
      requested := requested + [size];
    }
  }

  /** The local file system, as the contents of each file by path. */
  class LocalDisk {
    var files: map<string, seq<byte>>

    constructor (files: map<string, seq<byte>>)
      ensures this.files == files
    {
      this.files := files;
    }

    /** `open(path, 'wb')`: creates the file, or truncates it. */
    method Create(path: string)
      modifies this
      ensures files == old(files)[path := []]
    {
      files := files[path := []];
    }

    /** `f.write(bytes)` on a file opened for writing. */
    method Append(path: string, bytes: seq<byte>)
      requires path in files
      modifies this
      ensures files == old(files)[path := old(files)[path] + bytes]
    {
      files := files[path := files[path] + bytes];
    }
  }

  /** `stream_to_file`: writes to `filePath` every chunk the stream yields before
      its first empty read, each read asking for `chunkSize` bytes. */
  method StreamToFile(src: ByteSource, disk: LocalDisk, filePath: string, chunkSize: int := 524288)
    modifies src, disk
    ensures var copied := UntilEmpty(Rest(src.chunks, old(src.cursor)));
      && disk.files == old(disk.files)[filePath := Concat(copied)]
      && src.cursor == old(src.cursor) + |copied| + 1
      && src.requested == old(src.requested) + Repeat(chunkSize, |copied| + 1)
  {
    ghost var c0 := src.cursor;
    ghost var copied := UntilEmpty(Rest(src.chunks, c0));
    disk.Create(filePath);
    var chunk := src.Read(chunkSize);
    ghost var k := 0;
    while chunk != []
      invariant k <= |copied|
      invariant chunk == ReadAt(src.chunks, c0 + k)
      invariant src.cursor == c0 + k + 1
      invariant src.requested == old(src.requested) + Repeat(chunkSize, k + 1)
      invariant disk.files == old(disk.files)[filePath := Concat(copied[..k])]
      decreases |copied| - k
    {
      CopiedStep(src.chunks, c0, k);
      UpdateTwice(old(disk.files), filePath, Concat(copied[..k]), Concat(copied[..k + 1]));
      disk.Append(filePath, chunk);
      chunk := src.Read(chunkSize);
      k := k + 1;
    }
    CopiedEnd(src.chunks, c0, k);
    assert copied[..k] == copied;
  }

  // ---------------------------------------------------------------------------
  // decompress_stream_to_file: decoder and output path

  /** The index of the last occurrence of `c` in `s`. */
  function LastIndexOf(s: string, c: char): (r: Option<nat>)
    ensures r.None? ==> c !in s
    ensures r.Some? ==> r.value < |s| && s[r.value] == c && c !in s[r.value + 1..]
    decreases |s|
  {
    if |s| == 0 then None
    else if s[|s| - 1] == c then Some(|s| - 1)
    else
      var r := LastIndexOf(s[..|s| - 1], c);
      assert r.Some? ==> s[r.value + 1..] == s[..|s| - 1][r.value + 1..] + [s[|s| - 1]];
      r
  }

  /** `PurePath.name`: the final component of a path. */
  function Name(path: string): (n: string)
    ensures '/' !in n
    ensures n == path || (exists i :: 0 <= i < |path| && path[i] == '/' && n == path[i + 1..])
  {
    match LastIndexOf(path, '/')
    case None => path
    case Some(i) => path[i + 1..]
  }

  /** Where the final suffix of a name starts, if it has one: at its last dot,
      provided that dot is neither the first nor the last character. */
  function SuffixStart(name: string): Option<nat> {
    match LastIndexOf(name, '.')
    case Some(i) => if 0 < i < |name| - 1 then Some(i) else None
    case None => None
  }

  /** `PurePath.suffix` of a name. */
  function Suffix(name: string): (s: string)
    ensures s == [] || (s[0] == '.' && |s| >= 2 && '.' !in s[1..])
  {
    match SuffixStart(name)
    case Some(i) => name[i..]
    case None => ""
  }

  /** `PurePath.stem` of a name. */
  function Stem(name: string): string {
    match SuffixStart(name)
    case Some(i) => name[..i]
    case None => name
  }

  /** A name is its stem followed by its suffix. */
  lemma StemSuffix(name: string)
    ensures Stem(name) + Suffix(name) == name
    ensures Suffix(name) != [] ==> Stem(name) != []
  {
    match SuffixStart(name)
    case Some(i) =>
      assert name[..i] + name[i..] == name;
    case None =>
  }

  /** A name has a suffix exactly when its last dot is neither its first nor its
      last character, and the suffix is the name from that dot on. */
  lemma SuffixCharacterized(name: string)
    ensures Suffix(name) != [] <==>
      exists i :: 0 < i < |name| - 1 && name[i] == '.' && '.' !in name[i + 1..]
    ensures Suffix(name) != [] ==> Suffix(name) == name[|name| - |Suffix(name)|..]
  {
    if exists i :: 0 < i < |name| - 1 && name[i] == '.' && '.' !in name[i + 1..] {
      var i :| 0 < i < |name| - 1 && name[i] == '.' && '.' !in name[i + 1..];
      LastIndexOfAt(name, '.', i);
    }
  }

  /** The decoder `decompress_stream_to_file` puts between stream and file. */
  datatype Codec = Zstd | Gzip | Raw

  /** The decoder and the path `decompress_stream_to_file` writes to and returns. */
  function DecompressTarget(filePath: string): (r: (Codec, string))
    ensures r.0 == Zstd <==> Suffix(Name(filePath)) == ".zst"
    ensures r.0 == Gzip <==> Suffix(Name(filePath)) == ".gz"
  {
    var name := Name(filePath);
    if Suffix(name) == ".zst" then (Zstd, Stem(name))
    else if Suffix(name) == ".gz" then (Gzip, Stem(name))
    else (Raw, filePath)
  }

  /** A decoded file is named by the final component with the compression suffix
      removed and the directory dropped; any other file keeps its path. */
  lemma DecompressTargetPath(filePath: string)
    ensures var (codec, out) := DecompressTarget(filePath);
      && (codec != Raw ==>
            && out + (if codec == Zstd then ".zst" else ".gz") == Name(filePath)
            && '/' !in out && out != [])
      && (codec == Raw ==> out == filePath)
  {
    StemSuffix(Name(filePath));
  }

  /** `c` occurs at `i` and nowhere after it. */
  lemma LastIndexOfAt(s: string, c: char, i: nat)
    requires i < |s| && s[i] == c && c !in s[i + 1..]
    ensures LastIndexOf(s, c) == Some(i)
  {
    assert c in s by { assert s[i] == c; }
  }

  /** Only the last suffix of the final component counts: whatever the directory
      and however many dots the rest of the name holds, `x.zst` decodes with zstd
      into `x` and `x.gz` with gzip into `x`. */
  lemma DecompressTargetOfCompressedName(dir: string, x: string, ext: string)
    requires ext == ".zst" || ext == ".gz"
    requires x != [] && '/' !in x
    ensures DecompressTarget(dir + "/" + x + ext) == (if ext == ".zst" then Zstd else Gzip, x)
  {
    var path := dir + "/" + x + ext;
    var name := x + ext;
    assert path[|dir| + 1..] == name;
    LastIndexOfAt(path, '/', |dir|);
    assert Name(path) == name;
    LastIndexOfAt(name, '.', |x|);
    assert SuffixStart(name) == Some(|x|);
    assert name[|x|..] == ext && name[..|x|] == x;
  }
}
