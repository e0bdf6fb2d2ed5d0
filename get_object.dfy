/** `get_object_s3` of s3tethys/main.py: which transport opens an object
    (public URL, an S3 client, or a client built from a connection dictionary),
    with which address, byte-range string and transport parameters. The stream
    that smart_open then opens lies outside the model. */
module GetObject {
  import opened Values
  import opened Decimal
  import Utils
  import opened Connection

  /** One bound of the byte range: its decimal form, or empty when missing. */
  function RangeBound(b: Option<int>): string {
    match b
    case None => ""
    case Some(n) => PyStr(n)
  }

  /** The `Range` header value, `bytes={start}-{end}`. */
  function RangeHeader(start: Option<int>, end: Option<int>): (h: string)
    ensures |h| >= 7 && h[..6] == "bytes="
    ensures start.None? && end.None? ==> h == "bytes=-"
  {
    "bytes=" + RangeBound(start) + "-" + RangeBound(end)
  }

  /** Reads one bound back: empty means missing. */
  function ParseBound(t: string): Option<Option<int>> {
    if t == "" then Some(None)
    else match ParseInt(t)
      case None => None
      case Some(n) => Some(Some(n))
  }

  /** Position `j` of `rest` is a `-` at which both sides read as bounds. */
  predicate SplitsAt(rest: string, j: nat) {
    j < |rest| && rest[j] == '-' && ParseBound(rest[..j]).Some? && ParseBound(rest[j + 1..]).Some?
  }

  /** Reads `{start}-{end}` back: the bounds at the first `-` from `from` on at
      which both sides read as bounds. */
  function SplitRange(rest: string, from: nat): Option<(Option<int>, Option<int>)>
    decreases |rest| - from
  {
    if from >= |rest| then None
    else if SplitsAt(rest, from) then Some((ParseBound(rest[..from]).value, ParseBound(rest[from + 1..]).value))
    else SplitRange(rest, from + 1)
  }

  /** Reads a header of the form `bytes={start}-{end}` back into its bounds. */
  function ParseRangeHeader(h: string): Option<(Option<int>, Option<int>)> {
    if |h| < 6 || h[..6] != "bytes=" then None
    else SplitRange(h[6..], 0)
  }

  lemma ParseBoundRangeBound(b: Option<int>)
    ensures ParseBound(RangeBound(b)) == Some(b)
  {
    if b.Some? {
      ParseIntPyStr(b.value);
    }
  }

  /** The split found is the first position from `from` on that splits. */
  lemma {:induction false} SplitRangeFirst(rest: string, from: nat, k: nat)
    requires from <= k && SplitsAt(rest, k)
    requires forall j :: from <= j < k ==> !SplitsAt(rest, j)
    ensures SplitRange(rest, from) == Some((ParseBound(rest[..k]).value, ParseBound(rest[k + 1..]).value))
    decreases k - from
  {
    if from < k {
      SplitRangeFirst(rest, from + 1, k);
    }
  }

  /** The only `-` a printed bound can hold is the sign of a negative start,
      and digits follow it. */
  lemma RangeBoundMinus(b: Option<int>)
    ensures forall j :: 0 < j < |RangeBound(b)| ==> RangeBound(b)[j] != '-'
    ensures |RangeBound(b)| > 0 && RangeBound(b)[0] == '-' ==>
      b.Some? && b.value < 0 && |RangeBound(b)| >= 2 && IsDigit(RangeBound(b)[1])
  {
    var s := RangeBound(b);
    if b.Some? && b.value < 0 {
      assert s[1..][0] == s[1];
      forall j | 0 < j < |s|
        ensures s[j] != '-'
      {
        assert s[1..][j - 1] == s[j];
      }
    }
  }

  /** Text that starts with a digit and holds a `-` reads as no bound. */
  lemma NoBoundWithInnerMinus(t: string, k: nat)
    requires 0 < k < |t| && IsDigit(t[0]) && t[k] == '-'
    ensures ParseBound(t).None?
  {
    assert !IsDigit(t[k]);
  }

  /** No `-` inside a printed start is a split: only the sign of a negative
      start is a `-` there, and what follows it starts with a digit and holds
      the separator, so it does not read as a bound. */
  lemma NoSplitInStart(s: string, e: string, start: Option<int>)
    requires s == RangeBound(start)
    ensures forall j :: 0 <= j < |s| ==> !SplitsAt(s + "-" + e, j)
  {
    var rest := s + "-" + e;
    RangeBoundMinus(start);
    forall j | 0 <= j < |s|
      ensures !SplitsAt(rest, j)
    {
      if j == 0 && s[0] == '-' {
        var t := rest[1..];
        assert t[0] == s[1] && t[|s| - 1] == rest[|s|];
        NoBoundWithInnerMinus(t, |s| - 1);
      } else {
        assert rest[j] == s[j];
      }
    }
  }

  /** The header determines the range it was made from, for every pair of
      bounds, negative ones included. */
  lemma RangeHeaderRoundTrip(start: Option<int>, end: Option<int>)
    ensures ParseRangeHeader(RangeHeader(start, end)) == Some((start, end))
  {
    var s, e := RangeBound(start), RangeBound(end);
    var rest := s + "-" + e;
    assert RangeHeader(start, end)[6..] == rest;
    assert rest[..|s|] == s && rest[|s| + 1..] == e;
    ParseBoundRangeBound(start);
    ParseBoundRangeBound(end);
    assert SplitsAt(rest, |s|);
    NoSplitInStart(s, e, start);
    SplitRangeFirst(rest, 0, |s|);
  }

  /** How the object is reached when a client is used. */
  datatype ClientSource =
    | SuppliedClient(client: Arg<Client>)               // `s3` as passed (not None)
    | BuiltClient(args: map<string, ConfigValue>)      // `s3_client(connection_config)`

  /** What `smart_open.open` is called with. */
  datatype GetRequest =
    | PublicGet(url: string, headers: map<string, string>, bufferSize: int)
    | ClientGet(url: string, source: ClientSource, getObjectKwargs: map<string, string>,
                bufferSize: int, versionId: Option<string>)

  datatype GetError =
    | TypeError                    // none of s3, connection_config or public_url usable
    | ClientSetup(cause: ClientError)

  /** The range string a request carries, whichever transport it uses. */
  function RequestRange(r: GetRequest): Option<string> {
    match r
    case PublicGet(_, headers, _) => if "Range" in headers then Some(headers["Range"]) else None
    case ClientGet(_, _, kwargs, _, _) => if "Range" in kwargs then Some(kwargs["Range"]) else None
  }

  /** `get_object_s3`. `schemaValid` is the verdict of the connection-config
      schema on `connectionConfig`, which lies outside the model. */
  function GetObjectS3(objKey: string, bucket: string, s3: Arg<Client> := Absent,
                       connectionConfig: Arg<map<string, ConfigValue>> := Absent, schemaValid: bool,
                       publicUrl: Arg<string> := Absent, versionId: Arg<string> := Absent,
                       rangeStart: Option<int> := None, rangeEnd: Option<int> := None,
                       chunkSize: int := 524288)
    : (r: Result<GetRequest, GetError>)
    ensures r.Ok? ==> RequestRange(r.value) == Some(RangeHeader(rangeStart, rangeEnd))
    ensures r.Ok? && r.value.PublicGet? ==> r.value.headers == map["Range" := RangeHeader(rangeStart, rangeEnd)]
    ensures r.Ok? && r.value.ClientGet? ==>
      r.value.getObjectKwargs == map["Range" := RangeHeader(rangeStart, rangeEnd)]
    ensures r.Ok? ==> r.value.bufferSize == chunkSize
    ensures r.Ok? && r.value.PublicGet? ==>
      publicUrl.Given? && r.value.url == Utils.CreatePublicS3Url(publicUrl.value, bucket, objKey)
    ensures r.Ok? && r.value.ClientGet? ==>
      && r.value.url == S3Url(bucket, objKey)
      && r.value.versionId == (if versionId.Given? then Some(versionId.value) else None)
      && (!s3.Absent? ==> r.value.source == SuppliedClient(s3))
      && (s3.Absent? ==>
            && connectionConfig.Given?
            && S3ClientArgs(connectionConfig.value, schemaValid, 30).Ok?
            && r.value.source == BuiltClient(S3ClientArgs(connectionConfig.value, schemaValid, 30).value))
    ensures r.Err? && r != Err(TypeError) ==>
      && s3.Absent? && connectionConfig.Given?
      && S3ClientArgs(connectionConfig.value, schemaValid, 30).Err?
      && r == Err(ClientSetup(S3ClientArgs(connectionConfig.value, schemaValid, 30).error))
  {
    var range := RangeHeader(rangeStart, rangeEnd);
    if publicUrl.Given? && versionId.Absent? then
      Ok(PublicGet(Utils.CreatePublicS3Url(publicUrl.value, bucket, objKey), map["Range" := range], chunkSize))
    else if s3.Given? || connectionConfig.Given? then
      var version := if versionId.Given? then Some(versionId.value) else None;
      if !s3.Absent? then
        Ok(ClientGet(S3Url(bucket, objKey), SuppliedClient(s3), map["Range" := range], chunkSize, version))
      else
        match S3ClientArgs(connectionConfig.value, schemaValid, 30)
        case Err(e) => Err(ClientSetup(e))
        case Ok(args) =>
          Ok(ClientGet(S3Url(bucket, objKey), BuiltClient(args), map["Range" := range], chunkSize, version))
    else Err(TypeError)
  }

  /** The transport is chosen in a fixed order: a public URL with no version id
      first, then a client or a connection dictionary, otherwise a TypeError. */
  lemma GetObjectDispatch(objKey: string, bucket: string, s3: Arg<Client>,
                          connectionConfig: Arg<map<string, ConfigValue>>, schemaValid: bool,
                          publicUrl: Arg<string>, versionId: Arg<string>,
                          rangeStart: Option<int>, rangeEnd: Option<int>, chunkSize: int)
    ensures var r := GetObjectS3(objKey, bucket, s3, connectionConfig, schemaValid, publicUrl, versionId,
                                 rangeStart, rangeEnd, chunkSize);
      && ((r.Ok? && r.value.PublicGet?) <==> publicUrl.Given? && versionId.Absent?)
      && ((r.Ok? && r.value.ClientGet?) <==>
            !(publicUrl.Given? && versionId.Absent?) && (s3.Given? || connectionConfig.Given?)
            && (s3.Absent? ==> S3ClientArgs(connectionConfig.value, schemaValid, 30).Ok?))
      && (r == Err(TypeError) <==>
            !(publicUrl.Given? && versionId.Absent?) && !s3.Given? && !connectionConfig.Given?)
  {
    var r := GetObjectS3(objKey, bucket, s3, connectionConfig, schemaValid, publicUrl, versionId,
                         rangeStart, rangeEnd, chunkSize);
    if publicUrl.Given? && versionId.Absent? {
      assert r.Ok? && r.value.PublicGet?;
    } else if s3.Given? || connectionConfig.Given? {
      if s3.Absent? {
        assert r.Ok? <==> S3ClientArgs(connectionConfig.value, schemaValid, 30).Ok?;
      } else {
        assert r.Ok? && r.value.ClientGet?;
      }
    } else {
      assert r == Err(TypeError);
    }
  }

  /** A public URL cannot serve a versioned read: with a version id and neither a
      client nor a connection dictionary, the call raises. */
  lemma PublicUrlWithVersionRaises(objKey: string, bucket: string, schemaValid: bool,
                                   publicUrl: string, versionId: string,
                                   rangeStart: Option<int>, rangeEnd: Option<int>, chunkSize: int)
    ensures GetObjectS3(objKey, bucket, Absent, Absent, schemaValid, Given(publicUrl), Given(versionId),
                        rangeStart, rangeEnd, chunkSize) == Err(TypeError)
  {
  }
}
