/** `list_objects_s3` of s3tethys/main.py: cursor-driven pagination over the
    listing API (continuation tokens, or markers on the one legacy endpoint),
    accumulation of every page's records, and the ETag clean-up of the result
    table. The listing service is abstracted as the page it answers to each call. */
module Listing {
  import opened Values
  import opened Connection

  /** A record of a page's `Contents`, reduced to the columns the table keeps. */
  datatype ListEntry = ListEntry(key: string, lastModified: string, etag: string, size: int)

  /** A response: its `Contents`, if the key is present, and its next cursor
      (`NextContinuationToken`, or `NextMarker` on the legacy API), if present. */
  datatype Page = Page(contents: Option<seq<ListEntry>>, next: Option<string>)

  /** The listing calls the helper issues. */
  datatype ListCall =
    | ListObjectsV2(bucket: string, prefix: string, startAfter: string, delimiter: string,
                    continuationToken: string)
    | ListObjects(bucket: string, prefix: string, marker: string, delimiter: string)

  /** One call and the page it was answered with. */
  datatype Exchange = Exchange(call: ListCall, page: Page)

  /** The fixed arguments of a listing and its dialect. */
  datatype Query = Query(bucket: string, prefix: string, startAfter: string, delimiter: string, legacy: bool)

  /** The endpoint host that only offers the marker-based listing. */
  const LegacyEndpoint: string := "https://vault.revera.co.nz"

  function ListQuery(s3: Client, bucket: string, prefix: string, startAfter: string, delimiter: string): Query {
    Query(bucket, prefix, startAfter, delimiter, s3.endpointHost == LegacyEndpoint)
  }

  /** The cursor of the first call: the start key on the legacy API, the
      continuation token otherwise. */
  function FirstCursor(q: Query, continuationToken: string): string {
    if q.legacy then q.startAfter else continuationToken
  }

  /** The call made with a given cursor. */
  function CallAt(q: Query, cursor: string): ListCall {
    if q.legacy then ListObjects(q.bucket, q.prefix, cursor, q.delimiter)
    else ListObjectsV2(q.bucket, q.prefix, q.startAfter, q.delimiter, cursor)
  }

  /** A page after which the loop makes another call. */
  predicate Continues(p: Page) {
    p.contents.Some? && p.next.Some?
  }

  /** A page that continues hands back a cursor lower in `rank` than the one
      it was asked with. */
  ghost predicate Advances(q: Query, respond: ListCall -> Page, rank: string -> nat, cursor: string) {
    var page := respond(CallAt(q, cursor));
    Continues(page) ==> rank(page.next.value) < rank(cursor)
  }

  /** The service's cursors run out: every page that continues advances. */
  ghost predicate ChainEnds(q: Query, respond: ListCall -> Page, rank: string -> nat) {
    forall c :: Advances(q, respond, rank, c)
  }

  /** The calls and pages of a listing that starts from `cursor`. */
  function Chain(q: Query, respond: ListCall -> Page, rank: string -> nat, cursor: string): seq<Exchange>
    requires ChainEnds(q, respond, rank)
    decreases rank(cursor)
  {
    var call := CallAt(q, cursor);
    var page := respond(call);
    assert Advances(q, respond, rank, cursor);
    if Continues(page) then [Exchange(call, page)] + Chain(q, respond, rank, page.next.value)
    else [Exchange(call, page)]
  }

  /** What a page adds to the result: its `Contents`, or nothing without the key. */
  function PageEntries(p: Page): seq<ListEntry> {
    if p.contents.Some? then p.contents.value else []
  }

  /** The records of a sequence of pages, page after page. */
  function Entries(ex: seq<Exchange>): seq<ListEntry> {
    if ex == [] then [] else Entries(ex[..|ex| - 1]) + PageEntries(ex[|ex| - 1].page)
  }

  /** A listing as the loop runs it, stated without recursion: the first call
      uses the first cursor, every page answers its call, every page but the
      last has `Contents` and a next cursor that the following call carries,
      and the last page lacks one of the two. */
  ghost predicate IsRun(q: Query, respond: ListCall -> Page, cursor: string, ex: seq<Exchange>) {
    && |ex| >= 1
    && ex[0].call == CallAt(q, cursor)
    && (forall i :: 0 <= i < |ex| ==> ex[i].page == respond(ex[i].call))
    && (forall i :: 0 <= i < |ex| - 1 ==>
          Continues(ex[i].page) && ex[i + 1].call == CallAt(q, ex[i].page.next.value))
    && !Continues(ex[|ex| - 1].page)
  }

  lemma {:induction false} ChainIsRun(q: Query, respond: ListCall -> Page, rank: string -> nat, cursor: string)
    requires ChainEnds(q, respond, rank)
    ensures IsRun(q, respond, cursor, Chain(q, respond, rank, cursor))
    decreases rank(cursor)
  {
    var page := respond(CallAt(q, cursor));
    assert Advances(q, respond, rank, cursor);
    if Continues(page) {
      ChainIsRun(q, respond, rank, page.next.value);
      var tail := Chain(q, respond, rank, page.next.value);
      var ex := Chain(q, respond, rank, cursor);
      assert ex == [Exchange(CallAt(q, cursor), page)] + tail;
      forall i | 0 <= i < |ex| - 1
        ensures Continues(ex[i].page) && ex[i + 1].call == CallAt(q, ex[i].page.next.value)
      {
        if i > 0 {
          assert ex[i] == tail[i - 1] && ex[i + 1] == tail[i];
        }
      }
    }
  }

  /** No other sequence of calls and pages is a run: `Chain` is the listing. */
  lemma {:induction false} RunIsChain(q: Query, respond: ListCall -> Page, rank: string -> nat, cursor: string,
                                      ex: seq<Exchange>)
    requires ChainEnds(q, respond, rank)
    requires IsRun(q, respond, cursor, ex)
    ensures ex == Chain(q, respond, rank, cursor)
    decreases rank(cursor)
  {
    var page := respond(CallAt(q, cursor));
    assert ex[0].page == page;
    assert Advances(q, respond, rank, cursor);
    if Continues(page) {
      var tail := ex[1..];
      assert |ex| >= 2;
      assert IsRun(q, respond, page.next.value, tail) by {
        forall i | 0 <= i < |tail| - 1
          ensures Continues(tail[i].page) && tail[i + 1].call == CallAt(q, tail[i].page.next.value)
        {
          assert tail[i] == ex[i + 1] && tail[i + 1] == ex[i + 2];
        }
      }
      RunIsChain(q, respond, rank, page.next.value, tail);
      assert ex == [ex[0]] + tail;
    } else {
      assert |ex| == 1;
    }
  }

  /** One more page adds its own records after those already gathered. */
  lemma EntriesSnoc(done: seq<Exchange>, x: Exchange)
    ensures Entries(done + [x]) == Entries(done) + PageEntries(x.page)
  {
    assert (done + [x])[..|done|] == done;
  }

  /** One step of the loop: the listing from `cursor` is its first exchange
      followed by the listing from the next cursor, if the page continues. */
  lemma ChainStep(q: Query, respond: ListCall -> Page, rank: string -> nat, cursor: string, done: seq<Exchange>)
    requires ChainEnds(q, respond, rank)
    ensures var x := Exchange(CallAt(q, cursor), respond(CallAt(q, cursor)));
      && (Continues(x.page) ==>
            done + Chain(q, respond, rank, cursor) == (done + [x]) + Chain(q, respond, rank, x.page.next.value))
      && (!Continues(x.page) ==> done + Chain(q, respond, rank, cursor) == done + [x])
  {
    var x := Exchange(CallAt(q, cursor), respond(CallAt(q, cursor)));
    if Continues(x.page) {
      var rest := Chain(q, respond, rank, x.page.next.value);
      assert Chain(q, respond, rank, cursor) == [x] + rest;
      assert done + ([x] + rest) == (done + [x]) + rest;
    } else {
      assert Chain(q, respond, rank, cursor) == [x];
    }
  }

  // ---------------------------------------------------------------------------
  // The result table

  /** Python's `s.replace('"', '')`: every double quote removed, wherever it is. */
  function StripQuotes(s: string): (r: string)
    ensures '"' !in r
    ensures |r| <= |s|
    decreases |s|
  {
    if s == [] then []
    else (if s[0] == '"' then [] else [s[0]]) + StripQuotes(s[1..])
  }

  lemma {:induction false} StripQuotesAppend(a: string, b: string)
    ensures StripQuotes(a + b) == StripQuotes(a) + StripQuotes(b)
    decreases |a|
  {
    if a != [] {
      assert (a + b)[1..] == a[1..] + b;
      StripQuotesAppend(a[1..], b);
    } else {
      assert a + b == b;
    }
  }

  /** A string is left alone exactly when it holds no double quote. */
  lemma {:induction false} StripQuotesIdentity(s: string)
    ensures StripQuotes(s) == s <==> '"' !in s
    decreases |s|
  {
    if s != [] {
      StripQuotesIdentity(s[1..]);
      if s[0] == '"' {
        assert |StripQuotes(s)| < |s|;
      }
    }
  }

  /** The quotes S3 puts around an ETag go, and so do any inside it. */
  lemma StripQuotesQuoteMark()
    ensures StripQuotes("\"") == []
  {
    assert "\""[1..] == [];
  }

  /** The quotes S3 puts around an ETag go. */
  lemma StripQuotesSurrounded(inner: string)
    ensures StripQuotes("\"" + inner + "\"") == StripQuotes(inner)
  {
    StripQuotesQuoteMark();
    StripQuotesAppend("\"" + inner, "\"");
    StripQuotesAppend("\"", inner);
  }

  /** So does a quote anywhere inside it. */
  lemma StripQuotesInner(x: string, y: string)
    ensures StripQuotes(x + "\"" + y) == StripQuotes(x) + StripQuotes(y)
  {
    StripQuotesQuoteMark();
    StripQuotesAppend(x + "\"", y);
    StripQuotesAppend(x, "\"");
  }

  /** A row of the returned table. */
  datatype ObjectRow = ObjectRow(key: string, lastModified: string, etag: string, size: int)

  /** The table built from the accumulated records: one row per record, in
      order, with the quotes removed from the ETag. */
  function Table(entries: seq<ListEntry>): (rows: seq<ObjectRow>)
    ensures |rows| == |entries|
    ensures forall i :: 0 <= i < |entries| ==>
      rows[i] == ObjectRow(entries[i].key, entries[i].lastModified, StripQuotes(entries[i].etag), entries[i].size)
  {
    seq(|entries|, i requires 0 <= i < |entries| =>
      ObjectRow(entries[i].key, entries[i].lastModified, StripQuotes(entries[i].etag), entries[i].size))
  }

  /** `list_objects_s3`: issues listing calls, feeding each page's cursor into the
      next call, until a page lacks `Contents` or a next cursor, and returns the
      table of every record received. `respond` is the listing service. */
  method ListObjectsS3(s3: Client, bucket: string, prefix: string, startAfter: string := "",
                       delimiter: string := "", continuationToken: string := "", respond: ListCall -> Page, rank: string -> nat)
    returns (rows: seq<ObjectRow>, calls: seq<ListCall>)
    requires ChainEnds(ListQuery(s3, bucket, prefix, startAfter, delimiter), respond, rank)
    ensures var q := ListQuery(s3, bucket, prefix, startAfter, delimiter);
      var ex := Chain(q, respond, rank, FirstCursor(q, continuationToken));
      && rows == Table(Entries(ex))
      && |calls| == |ex| && forall i :: 0 <= i < |ex| ==> calls[i] == ex[i].call
  {
    var q := ListQuery(s3, bucket, prefix, startAfter, delimiter);
    var cursor := FirstCursor(q, continuationToken);
    ghost var all := Chain(q, respond, rank, cursor);
    ghost var done: seq<Exchange> := [];
    var js: seq<ListEntry> := [];
    calls := [];
    while true
      invariant all == done + Chain(q, respond, rank, cursor)
      invariant js == Entries(done)
      invariant |calls| == |done| && forall i :: 0 <= i < |done| ==> calls[i] == done[i].call
      decreases rank(cursor)
    {
      var call := CallAt(q, cursor);
      var page := respond(call);
      assert Advances(q, respond, rank, cursor);
      ChainStep(q, respond, rank, cursor, done);
      EntriesSnoc(done, Exchange(call, page));
      done := done + [Exchange(call, page)];
      calls := calls + [call];
      if page.contents.Some? {
        js := js + page.contents.value;
        if page.next.Some? {
          cursor := page.next.value;
        } else {
          break;
        }
      } else {
        break;
      }
    }
    rows := Table(js);
  }
}
