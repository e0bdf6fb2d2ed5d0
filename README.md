# s3tethys in Dafny

s3tethys is a set of helper functions around an S3 object store: open an object
for reading (through a public URL, an S3 client, or a client built from a
connection dictionary), upload a file object, copy an object server-side with a
bounded retry loop, list a bucket page by page into a table, and stream or
decompress a download into a local file. This project models the decisions
those helpers make, and proves what they promise:

- `Utils`: the public URL of an object. The base URL loses its trailing
  slashes, and a `contabo` base joins the bucket with `:` instead of `/`. Also
  the size of a seekable file object, measured with its position restored.
- `Decimal`: Python's `str()` of an integer, with a parser proved to undo it.
- `Connection`: the keyword arguments `s3_client` builds a client from. The
  caller's nested `config` block is merged with the helper's fixed tuning. Also
  the `s3://bucket/key` address.
- `GetObject`: the transport `get_object_s3` picks, in its fixed order. Each
  request carries the `Range` string `bytes={start}-{end}`, and that string is
  proved to read back as the bounds it was built from, for every pair of
  bounds, a negative start included.
- `Upload`: the single-part or multipart plan of `put_object_s3` (strictly
  more than 5 MiB goes multipart). Also the retry loop that `put_object_s3` and
  `copy_object_s3` share. A method runs that loop and is proved against a
  recursive definition. That definition is characterised by lemmas: at most
  `retries` attempts, a stop at the first attempt that does not raise
  ConnectionClosedError, and ConnectionClosedError raised exactly when every
  attempt raised it. With `retries <= 0` the loop never runs, and
  `copy_object_s3` then fails on `return resp` with an UnboundLocalError.
- `Streams`: the chunk loop of `stream_to_file` over a stream object and a
  local disk object. The file ends up holding the chunks read before the first
  empty read. Also the decoder and output path of `decompress_stream_to_file`:
  the stem of the final path component for `.zst` and `.gz`, the path itself
  otherwise.
- `Listing`: the pagination loop of `list_objects_s3`. It uses continuation
  tokens, or markers when the client's endpoint host is
  `https://vault.revera.co.nz`. The loop is proved equal to a recursive chain
  of calls and pages, and that chain is proved to be the only run the loop's
  rules allow. The result table removes every `"` from each ETag.

The S3 service, the stream and the disk are parameters of the model:
- an attempt function gives what the k-th upload or copy attempt does;
- a response function gives the page answering each listing call;
- classes hold the chunk sequence of a stream and the files of a disk.

## Model

| member | source | states |
|---|---|---|
| Utils.RStripSlashes | s3tethys/utils.py:28-30 | `rstrip('/')`: the result is a prefix of the input, does not end in `/`, and only `/` characters were removed |
| Utils.RStripSlashesUnique | s3tethys/utils.py:28-30 | those three properties determine the stripped string |
| Utils.ContainsIff | s3tethys/utils.py:27 | the `in` test holds exactly when the marker occurs at some position of the base URL |
| Utils.CreatePublicS3Url | s3tethys/utils.py:15-32 | the URL is the stripped base, then `:` if the base contains `contabo` and `/` otherwise, then the bucket, `/` and the key, with exactly that length |
| Utils.ContaboAnywhereInBase | s3tethys/utils.py:27-28 | `contabo` anywhere in the base URL, path included, selects the `:` form |
| Utils.NoContaboMeansSlash | s3tethys/utils.py:27-30 | any base URL in which `contabo` occurs at no position gets the `/` form |
| Utils.ContaboMatchIsCaseSensitive | s3tethys/utils.py:27-30 | an instance of the above: the upper-case base `CONTABO` with bucket `b` and key `k` gives `CONTABO/b/k` |
| Utils.SeekableFile.Tell | s3tethys/utils.py:49 | `tell()` returns the current position |
| Utils.SeekableFile.SeekEnd | s3tethys/utils.py:50 | `seek(0, SEEK_END)` moves the position to the file's length |
| Utils.SeekableFile.Seek | s3tethys/utils.py:52 | `seek(p)` moves the position to `p` |
| Utils.DetermineFileObjSize | s3tethys/utils.py:45-54 | returns the file's length from any starting position and leaves the position unchanged |
| Decimal.NatDigits | s3tethys/main.py:113-121 | the decimal form of a natural number is non-empty, all digits, and has no leading zero unless it is `0` |
| Decimal.PyStr | s3tethys/main.py:113-121 | `str(n)` is digits, preceded by `-` exactly when `n` is negative |
| Decimal.ParseNatDigits | s3tethys/main.py:113-121 | reading the digits of `n` back gives `n` |
| Decimal.ParseIntPyStr | s3tethys/main.py:113-121 | parsing `str(n)` gives back `n` for every integer |
| Decimal.PyStrInjective | s3tethys/main.py:113-121 | distinct integers print differently |
| Connection.S3ClientArgs | s3tethys/main.py:45-78 | fails exactly when the schema rejects the dictionary or its `config` entry is not a dictionary; otherwise keeps every key and adds `config` |
| Connection.S3ClientArgsOverridesTuning | s3tethys/main.py:63-76 | the merged `config` holds the caller's keys plus the tuning keys; the tuning values override the caller's; other keys are kept |
| Connection.S3Url | s3tethys/main.py:38 | `s3://`, the bucket, `/`, then the key |
| GetObject.RangeHeader | s3tethys/main.py:110-129 | the range string starts with `bytes=`, and is `bytes=-` when both bounds are missing |
| GetObject.ParseBoundRangeBound | s3tethys/main.py:113-121 | each printed bound reads back as itself, a missing bound included |
| GetObject.SplitRangeFirst | s3tethys/main.py:128 | reading a range string back takes the first `-` at which both sides read as bounds |
| GetObject.RangeBoundMinus | s3tethys/main.py:113-121 | the only `-` a printed bound holds is the sign at the front of a negative one, and a digit follows it |
| GetObject.NoBoundWithInnerMinus | s3tethys/main.py:113-121 | text that starts with a digit and holds a `-` is no printed bound |
| GetObject.NoSplitInStart | s3tethys/main.py:113-128 | no `-` inside the printed start is a place where the range string splits into two bounds |
| GetObject.RangeHeaderRoundTrip | s3tethys/main.py:110-129 | the range string gives back both bounds for every start and end, missing or negative ones included |
| GetObject.GetObjectS3 | s3tethys/main.py:81-151 | every request carries the chunk size, and its headers (public) or `get_object` kwargs (client) are exactly the one `Range` entry; a public request uses the public URL of the object; a client request uses the `s3://` address, carries the given version id exactly when it is a string, and carries the `s3` argument when it is not None and otherwise the client built from the connection dictionary; any error other than TypeError is the setup error of that client |
| GetObject.GetObjectDispatch | s3tethys/main.py:124-149 | public URL without a version id first; then a client or a connection dictionary (a built client only when setup succeeds); TypeError exactly when neither applies |
| GetObject.PublicUrlWithVersionRaises | s3tethys/main.py:124-149 | a public URL with a version id and no client raises TypeError |
| Upload.RetryShape | s3tethys/main.py:265-278 | a run that starts makes between 1 and `counter` attempts and one sleep between each pair of attempts; every attempt but the last raised ConnectionClosedError; the end is read off the last attempt |
| Upload.RetryBounds | s3tethys/main.py:265-278 | no attempt exactly when `retries <= 0`; otherwise at most `retries` attempts and one sleep fewer than attempts |
| Upload.RetrySucceedsAtFirstSuccess | s3tethys/main.py:265-270 | the loop stops at the first attempt that returns, with its value, after `i` sleeps |
| Upload.RetryExhausted | s3tethys/main.py:272-278 | ConnectionClosedError escapes exactly when all `retries` attempts raised it |
| Upload.RunWithRetries | s3tethys/main.py:265-278 | the loop computes the run of the recursive retry definition |
| Upload.PlanUpload | s3tethys/main.py:245-263 | `s3://` address; multipart exactly when the size exceeds 5 MiB; client kwargs under `create_multipart_upload` or `put_object` only; Metadata and ContentType present exactly when given as a dict or a string |
| Upload.MultipartBoundary | s3tethys/main.py:245-263 | exactly 5 MiB is single-part, one byte more is multipart, and multipart is monotone in size |
| Upload.PutObjectS3 | s3tethys/main.py:222-287 | the plan is made from the file's length with its position restored; attempts, sleeps and the escaping exception are those of the retry loop |
| Upload.CopyObjectS3 | s3tethys/main.py:317-344 | the copy request with directive COPY; at most `retries` attempts; UnboundLocalError exactly when `retries <= 0`; a response exactly when an attempt within budget returns after only connection-closed failures, and it is that attempt's response; the attempt count and the escaping exception (ConnectionClosedError once the budget is spent, any other exception at once) are those of the retry loop |
| Streams.ConcatAppend | s3tethys/main.py:162-165 | the bytes of two runs of chunks are the bytes of the first, then of the second |
| Streams.UntilEmpty | s3tethys/main.py:162-165 | the copied chunks are the leading non-empty chunks, stopping at the first empty one |
| Streams.UntilEmptyNoEmptyChunk | s3tethys/main.py:162-165 | a stream with no empty chunk is copied whole |
| Streams.ByteSource.Read | s3tethys/main.py:162-165 | a read returns the next chunk, or nothing past the end, advances the stream and records the requested size |
| Streams.LocalDisk.Create | s3tethys/main.py:161 | opening for writing leaves the file empty and every other file unchanged |
| Streams.LocalDisk.Append | s3tethys/main.py:164 | a write appends the bytes to that file only |
| Streams.StreamToFile | s3tethys/main.py:154-165 | the file holds exactly the chunks read before the first empty read, in order; the stream advanced by one more read than chunks copied, each asking for `chunk_size` |
| Streams.LastIndexOf | s3tethys/main.py:172-183 | the last occurrence of a character, or none |
| Streams.Name | s3tethys/main.py:172-183 | a path's final component holds no `/` and is the whole path or what follows a `/` |
| Streams.Suffix | s3tethys/main.py:175-183 | a suffix is empty or a dot followed by at least one character and no further dot |
| Streams.SuffixCharacterized | s3tethys/main.py:175-183 | a name has a suffix exactly when its last dot is neither its first nor its last character, and the suffix is the end of the name from that dot |
| Streams.StemSuffix | s3tethys/main.py:175-183 | the stem followed by the suffix is the name; a name with a suffix has a non-empty stem |
| Streams.DecompressTarget | s3tethys/main.py:168-192 | zstd exactly for suffix `.zst`, gzip exactly for `.gz` |
| Streams.DecompressTargetPath | s3tethys/main.py:168-192 | a decoded file is written to the stem of the final component, which with the suffix gives back that component and holds no `/`; any other file keeps its path |
| Streams.DecompressTargetOfCompressedName | s3tethys/main.py:168-192 | for any directory and any `/`-free name `x`, `x.zst` decodes with zstd to `x` and `x.gz` with gzip to `x` |
| Listing.ChainIsRun | s3tethys/main.py:391-417 | the chain starts with the first cursor; each page answers its call; each call but the first carries the cursor of the page before; every page but the last has Contents and a next cursor, and the last lacks one |
| Listing.RunIsChain | s3tethys/main.py:391-417 | any run with those properties is the chain: the pagination is determined by the service's answers |
| Listing.EntriesSnoc | s3tethys/main.py:396-397 | a page adds its Contents after the records already gathered, and nothing if it has none |
| Listing.ChainStep | s3tethys/main.py:393-403 | one iteration: a page that continues is followed by the listing from its cursor; any other page ends it |
| Listing.StripQuotes | s3tethys/main.py:422 | the cleaned ETag holds no `"` and is no longer than before |
| Listing.StripQuotesAppend | s3tethys/main.py:422 | the cleaning distributes over concatenation |
| Listing.StripQuotesIdentity | s3tethys/main.py:422 | a string is unchanged exactly when it holds no `"` |
| Listing.StripQuotesQuoteMark | s3tethys/main.py:422 | a lone `"` cleans to nothing |
| Listing.StripQuotesSurrounded | s3tethys/main.py:422 | the surrounding quotes of an ETag are removed |
| Listing.StripQuotesInner | s3tethys/main.py:422 | a quote inside the string is removed too |
| Listing.Table | s3tethys/main.py:419-431 | one row per record, in order, with Key, LastModified and Size kept and the ETag cleaned; no record gives no row |
| Listing.ListObjectsS3 | s3tethys/main.py:368-431 | the calls made are the chain from the first cursor (start key on the legacy endpoint, continuation token otherwise); the rows are the table of every record the chain's pages hold |

## Left out

- Network and storage I/O is replaced by parameters. The S3 service, smart_open and boto3 appear as the attempt function, the listing response function and the request values built for them. The bytes that an upload or a public or client read transfers are not modelled.
- The zstd and gzip decoders are not modelled. Only the choice of decoder and the output path of `decompress_stream_to_file` are. The `.zst`/`.gz` branches write a decoded stream, which the model does not describe.
- `mkdir` of the parent directory, `sleep(3)`, `print`, and the module-level `DEFAULT_BUFFER_SIZE` assignment have no effect the model can observe. Sleeps are only counted.
- `decompress_stream_to_object` calls `open()` on an in-memory buffer and cannot run as written; it is not modelled.
- `list_object_versions_s3` calls the `s3_client` function object instead of its `s3` argument; it is not modelled.
- `multi_copy_object_s3` runs copies in a thread pool; concurrency is not modelled.
- `put_file_s3` only opens a file and calls `put_object_s3`; it is not modelled separately.
- Parsing dates from keys (`path_date_parser`, the `KeyDate` column) and the timezone conversion of `LastModified` are not modelled. `LastModified` is carried as the service returned it.
- Connection.S3ClientArgs: the pydantic `ConnectionConfig` validation is the boolean `schemaValid`, and the `boto3.session.Config` object is the merged dictionary itself. The client construction is not modelled.
- GetObject.GetObjectS3: the opened stream is not modelled; the result is the request made to open it.
- Streams.Name: paths are taken as strings. pathlib's normalisation (a trailing `/`, `.` components, repeated `/`) is not modelled.
- Streams.DecompressTarget: on the uncompressed branch the returned path is the path as given. `str(pathlib.Path(file_path))` would normalise it as above, so `a//b.txt` would become `a/b.txt`.
- Listing.ListObjectsS3: requires a rank on cursors that every continuing page lowers. Nothing guarantees this; it is the model's termination assumption. The source loops forever on a service that keeps returning Contents and a cursor.
- Upload.PutObjectS3: the write of the file object is an attempt function that cannot touch the file object. The model assumes that writing leaves the file object's position as `determine_file_obj_size` restored it, and does not model how far the write reads.
