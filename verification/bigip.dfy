/** The BIG-IP adapter (mcp-acme/adapters/bigip.py): the chunked upload's
    byte ranges, the HTTP-01 token data group as it is merged and pruned in
    place, and the REST paths of data groups and client-ssl profiles. The
    HTTP transport is outside the model: the device's answers are
    parameters, and the data group is the state the device holds. */
module BigIp {
  import opened Wrappers
  import opened Text

  // ------------------------------------------------------------------
  // Chunked upload
  // ------------------------------------------------------------------

  /** The bytes `[start, end)` of the content. */
  datatype Span = Span(start: nat, end: nat)

  /** The spans the upload loop posts, starting at `offset`: each runs to
      `min(offset + chunkSize, total)`. */
  function Spans(total: nat, chunkSize: nat, offset: nat): (s: seq<Span>)
    requires chunkSize > 0 && offset <= total
    ensures forall i :: 0 <= i < |s| ==> offset <= s[i].start <= s[i].end <= total
    decreases total - offset
  {
    if offset >= total then []
    else
      var end := if offset + chunkSize < total then offset + chunkSize else total;
      [Span(offset, end)] + Spans(total, chunkSize, end)
  }

  /** The spans run from `offset` to `total`: there are none exactly when
      nothing is left, the first starts at `offset` and the last ends at
      `total`. */
  lemma {:induction false} SpansEnds(total: nat, chunkSize: nat, offset: nat)
    requires chunkSize > 0 && offset <= total
    decreases total - offset
    ensures var s := Spans(total, chunkSize, offset);
            && (s == [] <==> offset == total)
            && (s != [] ==> s[0].start == offset && s[|s| - 1].end == total)
  {
    if offset < total {
      var end := if offset + chunkSize < total then offset + chunkSize else total;
      SpansEnds(total, chunkSize, end);
    }
  }

  /** Every span is non-empty and at most one chunk long. */
  lemma {:induction false} SpansSized(total: nat, chunkSize: nat, offset: nat)
    requires chunkSize > 0 && offset <= total
    decreases total - offset
    ensures var s := Spans(total, chunkSize, offset);
            forall i :: 0 <= i < |s| ==> s[i].start < s[i].end && s[i].end - s[i].start <= chunkSize
  {
    if offset < total {
      var end := if offset + chunkSize < total then offset + chunkSize else total;
      SpansSized(total, chunkSize, end);
      var s := Spans(total, chunkSize, offset);
      assert forall i :: 1 <= i < |s| ==> s[i] == Spans(total, chunkSize, end)[i - 1];
    }
  }

  /** Each span ends where the next begins, and every span but the last
      is a full chunk. */
  lemma {:induction false} SpansContiguous(total: nat, chunkSize: nat, offset: nat)
    requires chunkSize > 0 && offset <= total
    decreases total - offset
    ensures var s := Spans(total, chunkSize, offset);
            forall i :: 0 <= i < |s| - 1 ==> s[i].end == s[i + 1].start && s[i].end - s[i].start == chunkSize
  {
    if offset < total {
      var end := if offset + chunkSize < total then offset + chunkSize else total;
      SpansContiguous(total, chunkSize, end);
      SpansEnds(total, chunkSize, end);
      var rest := Spans(total, chunkSize, end);
      var s := Spans(total, chunkSize, offset);
      assert s == [Span(offset, end)] + rest;
      forall i | 0 <= i < |s| - 1
        ensures s[i].end == s[i + 1].start && s[i].end - s[i].start == chunkSize
      {
        if i > 0 {
          assert s[i] == rest[i - 1] && s[i + 1] == rest[i];
        }
      }
    }
  }

  /** Each span ends before any later one starts, so no two overlap. */
  predicate Increasing(s: seq<Span>) {
    forall i, j :: 0 <= i < j < |s| ==> s[i].end <= s[j].start
  }

  /** Spans come in increasing order. */
  lemma {:induction false} SpansOrdered(total: nat, chunkSize: nat, offset: nat)
    requires chunkSize > 0 && offset <= total
    decreases total - offset
    ensures Increasing(Spans(total, chunkSize, offset))
  {
    if offset < total {
      var end := if offset + chunkSize < total then offset + chunkSize else total;
      SpansOrdered(total, chunkSize, end);
      var rest := Spans(total, chunkSize, end);
      var s := Spans(total, chunkSize, offset);
      assert s == [Span(offset, end)] + rest;
      forall i, j | 0 <= i < j < |s|
        ensures s[i].end <= s[j].start
      {
        if i == 0 {
          assert s[j] == rest[j - 1] && end <= rest[j - 1].start;
        } else {
          assert s[i] == rest[i - 1] && s[j] == rest[j - 1];
          assert rest[i - 1].end <= rest[j - 1].start;
        }
      }
    }
  }

  predicate InSomeSpan(s: seq<Span>, b: nat) {
    exists i :: 0 <= i < |s| && s[i].start <= b < s[i].end
  }

  /** Every byte of `[offset, total)` lies in a span. */
  lemma {:induction false} SpansCover(total: nat, chunkSize: nat, offset: nat, b: nat)
    requires chunkSize > 0 && offset <= b < total
    decreases total - offset
    ensures InSomeSpan(Spans(total, chunkSize, offset), b)
  {
    var end := if offset + chunkSize < total then offset + chunkSize else total;
    var s := Spans(total, chunkSize, offset);
    assert s == [Span(offset, end)] + Spans(total, chunkSize, end);
    if b < end {
      assert s[0].start <= b < s[0].end;
    } else {
      SpansCover(total, chunkSize, end, b);
      var rest := Spans(total, chunkSize, end);
      var i :| 0 <= i < |rest| && rest[i].start <= b < rest[i].end;
      assert s[i + 1] == rest[i];
      assert s[i + 1].start <= b < s[i + 1].end;
    }
  }

  /** One post of the upload: the chunk, and the span and total its
      `Content-Range` and `Content-Length` headers are written from (see
      `RangeHeader` and `LengthHeader`). */
  datatype Post = Post(chunk: seq<bv8>, start: nat, end: nat, total: nat)

  /** `f"{offset}-{end - 1}/{total}"`: the range with an inclusive end and
      no `bytes ` prefix. */
  function ContentRange(start: nat, end: nat, total: nat): string
    requires start < end
  {
    NatToString(start) + "-" + NatToString(end - 1) + "/" + NatToString(total)
  }

  /** How a receiver reads the header back: the first, last and total
      byte counts. */
  function ParseContentRange(h: string): Option<(nat, nat, nat)> {
    var p := Split(h, '-');
    if |p| != 2 then None
    else
      var q := Split(p[1], '/');
      if |q| != 2 || !AllDigits(p[0]) || !AllDigits(q[0]) || !AllDigits(q[1]) then None
      else Some((ParseDigits(p[0]), ParseDigits(q[0]), ParseDigits(q[1])))
  }

  /** A string of digits holds no `-` and no `/`. */
  lemma DigitsHoldNoSeparator(a: string)
    requires AllDigits(a)
    ensures '-' !in a && '/' !in a
  {
  }

  /** Splitting `a + [sep] + b` at `sep` when neither side holds it. */
  lemma SplitInTwo(a: string, b: string, sep: char)
    requires sep !in a && sep !in b
    ensures Split(a + [sep] + b, sep) == [a, b]
  {
    SplitWithout(b, sep);
    SplitAtFirst(a, b, sep);
  }

  /** The header names the span's first byte, its last byte (the end is
      inclusive) and the content length, and reads back unambiguously. */
  lemma ContentRangeRoundTrip(start: nat, end: nat, total: nat)
    requires start < end
    ensures ParseContentRange(ContentRange(start, end, total)) == Some((start, end - 1, total))
  {
    var a := NatToString(start);
    var b := NatToString(end - 1);
    var c := NatToString(total);
    var tail := b + ['/'] + c;
    assert ContentRange(start, end, total) == a + ['-'] + tail;
    DigitsHoldNoSeparator(a);
    DigitsHoldNoSeparator(b);
    DigitsHoldNoSeparator(c);
    assert '-' !in tail;
    SplitInTwo(a, tail, '-');
    SplitInTwo(b, c, '/');
    ParseNatToString(start);
    ParseNatToString(end - 1);
    ParseNatToString(total);
  }

  function PostOf(content: seq<bv8>, s: Span): Post
    requires s.start <= s.end <= |content|
  {
    Post(content[s.start..s.end], s.start, s.end, |content|)
  }

  /** The `Content-Range` header of a post. */
  function RangeHeader(p: Post): string
    requires p.start < p.end
  {
    ContentRange(p.start, p.end, p.total)
  }

  /** The `Content-Length` header of a post: `str(len(chunk))`. */
  function LengthHeader(p: Post): string {
    NatToString(|p.chunk|)
  }

  /** The spans lie inside the content. */
  predicate Within(content: seq<bv8>, spans: seq<Span>) {
    forall i :: 0 <= i < |spans| ==> spans[i].start <= spans[i].end <= |content|
  }

  /** The posts for the given spans, one per span, in order. */
  function PostsFor(content: seq<bv8>, spans: seq<Span>): (ps: seq<Post>)
    requires Within(content, spans)
    ensures |ps| == |spans|
  {
    if spans == [] then []
    else PostsFor(content, spans[..|spans| - 1]) + [PostOf(content, spans[|spans| - 1])]
  }

  /** The posts of a complete upload, in order. */
  function Posts(content: seq<bv8>, chunkSize: nat): (ps: seq<Post>)
    requires chunkSize > 0
  {
    PostsFor(content, Spans(|content|, chunkSize, 0))
  }

  /** The `k`-th post carries the `k`-th span's chunk and headers. */
  lemma {:induction false} PostsForAt(content: seq<bv8>, spans: seq<Span>, k: nat)
    requires Within(content, spans) && k < |spans|
    ensures PostsFor(content, spans)[k] == PostOf(content, spans[k])
    decreases |spans|
  {
    if k < |spans| - 1 {
      var init := spans[..|spans| - 1];
      PostsForAt(content, init, k);
    }
  }

  /** One more span adds its post at the end. */
  lemma PostsForSnoc(content: seq<bv8>, spans: seq<Span>, n: nat)
    requires Within(content, spans) && n < |spans|
    ensures PostsFor(content, spans[..n + 1]) == PostsFor(content, spans[..n]) + [PostOf(content, spans[n])]
  {
    assert spans[..n + 1][..n] == spans[..n];
  }

  /** Every post of a complete upload carries a non-empty chunk of at most
      `chunkSize` bytes, taken from the content at its span; its range
      header reads back as that span (end inclusive) and the content
      length, and its length header as the chunk's length. */
  lemma PostHeaders(content: seq<bv8>, chunkSize: nat, k: nat)
    requires chunkSize > 0 && k < |Posts(content, chunkSize)|
    ensures var p := Posts(content, chunkSize)[k];
            && p.start < p.end <= |content|
            && p.chunk == content[p.start..p.end]
            && 0 < |p.chunk| <= chunkSize
            && ParseContentRange(RangeHeader(p)) == Some((p.start, p.end - 1, |content|))
            && ParseDigits(LengthHeader(p)) == |p.chunk|
  {
    var s := Spans(|content|, chunkSize, 0);
    PostsForAt(content, s, k);
    SpansSized(|content|, chunkSize, 0);
    assert k < |s|;
    var sp := s[k];
    assert 0 <= k < |Spans(|content|, chunkSize, 0)|;
    assert Spans(|content|, chunkSize, 0)[k].start < Spans(|content|, chunkSize, 0)[k].end;
    assert sp.start < sp.end <= |content| && sp.end - sp.start <= chunkSize;
    var p := Posts(content, chunkSize)[k];
    assert p == PostOf(content, sp);
    ContentRangeRoundTrip(sp.start, sp.end, |content|);
    ParseNatToString(|p.chunk|);
  }

  /** The posts for the first `m` spans are the first `m` posts. */
  lemma {:induction false} PostsForPrefix(content: seq<bv8>, spans: seq<Span>, m: nat)
    requires Within(content, spans) && m <= |spans|
    ensures PostsFor(content, spans[..m]) == PostsFor(content, spans)[..m]
    decreases |spans|
  {
    if m == |spans| {
      assert spans[..m] == spans;
    } else {
      var init := spans[..|spans| - 1];
      assert init[..m] == spans[..m];
      PostsForPrefix(content, init, m);
    }
  }

  /** Gluing the chunks of a complete upload back together gives the
      content. */
  lemma {:induction false} ChunksRebuild(content: seq<bv8>, chunkSize: nat, offset: nat)
    requires chunkSize > 0 && offset <= |content|
    decreases |content| - offset
    ensures Glue(content, Spans(|content|, chunkSize, offset)) == content[offset..]
  {
    if offset < |content| {
      var end := if offset + chunkSize < |content| then offset + chunkSize else |content|;
      ChunksRebuild(content, chunkSize, end);
      var s := Spans(|content|, chunkSize, offset);
      assert s[1..] == Spans(|content|, chunkSize, end);
      assert content[offset..] == content[offset..end] + content[end..];
    }
  }

  /** The chunks of the given spans, concatenated. */
  function Glue(content: seq<bv8>, s: seq<Span>): seq<bv8>
    requires forall i :: 0 <= i < |s| ==> s[i].start <= s[i].end <= |content|
  {
    if s == [] then [] else content[s[0].start..s[0].end] + Glue(content, s[1..])
  }

  /** One step of the upload loop: the span at `offset` is the next one,
      and the spans after it are those from its end. */
  lemma NextSpan(total: nat, chunkSize: nat, offset: nat, all: seq<Span>, n: nat)
    requires chunkSize > 0 && offset < total && n <= |all|
    requires Spans(total, chunkSize, offset) == all[n..]
    ensures var end := if offset + chunkSize < total then offset + chunkSize else total;
            n < |all| && all[n] == Span(offset, end) && Spans(total, chunkSize, end) == all[n + 1..]
  {
    var end := if offset + chunkSize < total then offset + chunkSize else total;
    assert all[n..] == [Span(offset, end)] + Spans(total, chunkSize, end);
    assert all[n..][1..] == all[n + 1..];
  }

  /** One step of the upload loop: after the posts for the spans before
      `offset`, the post for the next span gives the posts for one span
      more. */
  lemma UploadStep(content: seq<bv8>, chunkSize: nat, offset: nat, all: seq<Span>, n: nat, posts: seq<Post>)
    requires chunkSize > 0 && offset < |content| && n <= |all|
    requires all == Spans(|content|, chunkSize, 0)
    requires Spans(|content|, chunkSize, offset) == all[n..]
    requires posts == PostsFor(content, all[..n])
    ensures var end := if offset + chunkSize < |content| then offset + chunkSize else |content|;
            && n < |all| && Spans(|content|, chunkSize, end) == all[n + 1..]
            && posts + [PostOf(content, Span(offset, end))] == PostsFor(content, all[..n + 1])
  {
    NextSpan(|content|, chunkSize, offset, all, n);
    PostsForSnoc(content, all, n);
  }

  datatype UploadError =
    | EmptyContent      // "empty content for upload"
    | Rejected(status: int)   // a chunk answered with neither 200 nor 201

  const DownloadsDir := "/var/config/rest/downloads/"

  predicate Accepted(status: int) { status == 200 || status == 201 }

  /** `_upload_octets`: posts the chunks in order until one is refused.
      `status(k)` is the device's answer to the `k`-th post. On success the
      upload returns where the device keeps the file. */
  method UploadOctets(name: string, content: seq<bv8>, chunkSize: nat, status: nat -> int)
    returns (r: Result<string, UploadError>, posts: seq<Post>)
    requires chunkSize > 0
    ensures content == [] ==> r == Failure(EmptyContent) && posts == []
    ensures content != [] ==>
              && 1 <= |posts| <= |Posts(content, chunkSize)|
              && posts == Posts(content, chunkSize)[..|posts|]
              && (forall k :: 0 <= k < |posts| - 1 ==> Accepted(status(k)))
    ensures content != [] && r.Success? ==>
              posts == Posts(content, chunkSize) && Accepted(status(|posts| - 1))
              && r.value == DownloadsDir + name
    ensures content != [] && r.Failure? ==> r.error == Rejected(status(|posts| - 1)) && !Accepted(status(|posts| - 1))
  {
    if |content| == 0 {
      return Failure(EmptyContent), [];
    }
    var refused;
    posts, refused := PostChunks(content, chunkSize, status);
    PostsForPrefix(content, Spans(|content|, chunkSize, 0), |posts|);
    if !refused {
      assert Spans(|content|, chunkSize, 0)[..|posts|] == Spans(|content|, chunkSize, 0);
    }
    if refused {
      r := Failure(Rejected(status(|posts| - 1)));
    } else {
      r := Success(DownloadsDir + name);
    }
  }

  /** The first `n + 1` answers were accepted when the first `n` and the
      next one were. */
  lemma AcceptedStep(status: nat -> int, n: nat)
    requires forall k :: 0 <= k < n ==> Accepted(status(k))
    requires Accepted(status(n))
    ensures forall k :: 0 <= k < n + 1 ==> Accepted(status(k))
  {
  }

  /** The loop of `_upload_octets`: the chunks from the start, each posted
      after the previous one was accepted, until one is refused or none is
      left. */
  method PostChunks(content: seq<bv8>, chunkSize: nat, status: nat -> int)
    returns (posts: seq<Post>, refused: bool)
    requires chunkSize > 0 && content != []
    ensures var all := Spans(|content|, chunkSize, 0);
            && 1 <= |posts| <= |all|
            && posts == PostsFor(content, all[..|posts|])
            && (!refused ==> |posts| == |all|)
    ensures forall k :: 0 <= k < |posts| - 1 ==> Accepted(status(k))
    ensures refused <==> !Accepted(status(|posts| - 1))
  {
    var total := |content|;
    ghost var all := Spans(total, chunkSize, 0);
    posts := [];
    var offset := 0;
    var n := 0;
    while offset < total
      invariant offset <= total && n == |posts| <= |all|
      invariant Spans(total, chunkSize, offset) == all[n..]
      invariant forall k :: 0 <= k < n ==> Accepted(status(k))
      invariant posts == PostsFor(content, all[..n])
      decreases total - offset
    {
      var end := if offset + chunkSize < total then offset + chunkSize else total;
      UploadStep(content, chunkSize, offset, all, n, posts);
      posts := posts + [PostOf(content, Span(offset, end))];
      if !Accepted(status(n)) {
        return posts, true;
      }
      AcceptedStep(status, n);
      n := n + 1;
      offset := end;
    }
    assert all[n..] == [];
    refused := false;
  }

  // ------------------------------------------------------------------
  // The HTTP-01 token data group
  // ------------------------------------------------------------------

  /** One data-group record; a record without `data` reads as `""`. */
  datatype Record = Record(name: string, data: string)

  /** `{r["name"]: r.get("data", "") for r in records}`: a later record
      with the same name wins. */
  function RecordMap(records: seq<Record>): map<string, string> {
    if records == [] then map[]
    else map[records[0].name := records[0].data] + RecordMap(records[1..])
  }

  lemma {:induction false} RecordMapKeys(records: seq<Record>, t: string)
    ensures t in RecordMap(records) <==> exists i :: 0 <= i < |records| && records[i].name == t
  {
    if records != [] {
      RecordMapKeys(records[1..], t);
      if exists i :: 0 <= i < |records| && records[i].name == t {
        var i :| 0 <= i < |records| && records[i].name == t;
        if i > 0 {
          assert records[1..][i - 1] == records[i];
        }
      }
    }
  }

  /** Sorted by name, as `sorted(existing.items())` leaves them (names are
      distinct, so the data never decides). */
  predicate SortedByName(records: seq<Record>) {
    forall i, j :: 0 <= i < j < |records| ==> Less(records[i].name, records[j].name)
  }

  /** Sorted records have distinct names. */
  lemma SortedDistinct(records: seq<Record>)
    requires SortedByName(records)
    ensures forall i, j :: 0 <= i < j < |records| ==> records[i].name != records[j].name
  {
    forall i, j | 0 <= i < j < |records|
      ensures records[i].name != records[j].name
    {
      if records[i].name == records[j].name {
        LessIrreflexive(records[i].name);
      }
    }
  }

  /** Insertion into a list of records sorted by name. */
  function Insert(records: seq<Record>, r: Record): (out: seq<Record>)
    ensures |out| == |records| + 1
  {
    if records == [] then [r]
    else if Less(r.name, records[0].name) then [r] + records
    else [records[0]] + Insert(records[1..], r)
  }

  /** A record below every name of a sorted list can go in front of it. */
  lemma ConsSorted(h: Record, records: seq<Record>)
    requires SortedByName(records)
    requires forall i :: 0 <= i < |records| ==> Less(h.name, records[i].name)
    ensures SortedByName([h] + records)
  {
    var out := [h] + records;
    forall i, j | 0 <= i < j < |out|
      ensures Less(out[i].name, out[j].name)
    {
      assert out[j] == records[j - 1];
      if i > 0 {
        assert out[i] == records[i - 1];
      }
    }
  }

  /** Insertion keeps every name above a common lower bound. */
  lemma {:induction false} InsertAbove(records: seq<Record>, r: Record, low: string)
    requires forall i :: 0 <= i < |records| ==> Less(low, records[i].name)
    requires Less(low, r.name)
    ensures forall i :: 0 <= i < |Insert(records, r)| ==> Less(low, Insert(records, r)[i].name)
  {
    if records != [] && !Less(r.name, records[0].name) {
      InsertAbove(records[1..], r, low);
    }
  }

  /** Insertion of a new name keeps the list sorted. */
  lemma {:induction false} InsertSorted(records: seq<Record>, r: Record)
    requires SortedByName(records)
    requires r.name !in RecordMap(records)
    ensures SortedByName(Insert(records, r))
  {
    if records != [] {
      RecordMapKeys(records, r.name);
      var h := records[0];
      var rest := records[1..];
      if Less(r.name, h.name) {
        forall i | 0 <= i < |records|
          ensures Less(r.name, records[i].name)
        {
          if i > 0 {
            LessTransitive(r.name, h.name, records[i].name);
          }
        }
        ConsSorted(r, records);
      } else {
        assert h.name != r.name;
        LessTotal(r.name, h.name);
        RecordMapKeys(rest, r.name);
        InsertSorted(rest, r);
        assert forall i :: 0 <= i < |rest| ==> rest[i] == records[i + 1];
        InsertAbove(rest, r, h.name);
        ConsSorted(h, Insert(rest, r));
      }
    }
  }

  /** Insertion of a new name adds exactly that entry to the map. */
  lemma {:induction false} InsertMap(records: seq<Record>, r: Record)
    requires r.name !in RecordMap(records)
    ensures RecordMap(Insert(records, r)) == RecordMap(records)[r.name := r.data]
  {
    if records != [] {
      RecordMapKeys(records, r.name);
      var h := records[0];
      if Less(r.name, h.name) {
        assert ([r] + records)[1..] == records;
        SingletonUnion(r.name, r.data, RecordMap(records));
      } else {
        assert h.name != r.name;
        var rest := records[1..];
        RecordMapKeys(rest, r.name);
        InsertMap(rest, r);
        assert ([h] + Insert(rest, r))[1..] == Insert(rest, r);
        SingletonUnionUpdate(h.name, h.data, RecordMap(rest), r.name, r.data);
      }
    }
  }

  lemma SingletonUnion(k: string, v: string, m: map<string, string>)
    requires k !in m
    ensures map[k := v] + m == m[k := v]
  {
  }

  lemma SingletonUnionUpdate(k: string, v: string, m: map<string, string>, k2: string, v2: string)
    requires k != k2
    ensures map[k := v] + m[k2 := v2] == (map[k := v] + m)[k2 := v2]
  {
  }

  /** The entries of `m` whose keys are in `keys`. */
  function Restrict(m: map<string, string>, keys: set<string>): map<string, string> {
    map k | k in m && k in keys :: m[k]
  }

  lemma RestrictGrow(m: map<string, string>, keys: set<string>, k: string)
    requires k in m
    ensures Restrict(m, keys + {k}) == Restrict(m, keys)[k := m[k]]
  {
  }

  /** Whether the upsert writes: some token is missing or has another
      value (`existing.get(tok) != ka`). */
  predicate UpsertChanges(existing: map<string, string>, tokens: map<string, string>) {
    exists t :: t in tokens && (t !in existing || existing[t] != tokens[t])
  }

  /** Whether the delete writes: some listed token exists. */
  predicate DeleteChanges(existing: map<string, string>, tokens: seq<string>) {
    exists i :: 0 <= i < |tokens| && tokens[i] in existing
  }

  function Without(m: map<string, string>, tokens: seq<string>): map<string, string> {
    map k | k in m && k !in tokens :: m[k]
  }

  /** A string data group on the device: whether it exists, its records,
      and how many times its records were written back. */
  class DataGroup {
    const partition: string
    const name: string
    var present: bool
    var records: seq<Record>
    var writes: nat

    /** A data group that does not exist has no records; the device keeps
        names unique. */
    predicate Valid()
      reads this
    {
      (!present ==> records == [])
      && forall i, j :: 0 <= i < j < |records| ==> records[i].name != records[j].name
    }

    constructor (partition: string, name: string, present: bool, records: seq<Record>)
      requires present || records == []
      requires forall i, j :: 0 <= i < j < |records| ==> records[i].name != records[j].name
      ensures Valid()
      ensures this.partition == partition && this.name == name
      ensures this.present == present && this.records == records && writes == 0
    {
      this.partition := partition;
      this.name := name;
      this.present := present;
      this.records := records;
      writes := 0;
    }

    /** The REST path of this data group. */
    function Path(): string
    {
      DgPath(partition, name)
    }

    function Contents(): map<string, string>
      reads this
    {
      RecordMap(records)
    }

    /** `ensure_string_dg`: a missing group is created empty. */
    method EnsureStringDg()
      modifies this
      requires Valid()
      ensures Valid() && present
      ensures records == old(records) && writes == old(writes)
    {
      if !present {
        present := true;
        records := [];
      }
    }

    /** `sorted(existing.items())` written back as the records. */
    method WriteSorted(m: map<string, string>)
      modifies this
      requires present
      ensures Valid() && present
      ensures SortedByName(records) && Contents() == m
      ensures writes == old(writes) + 1
    {
      var rs := SortRecords(m);
      SortedDistinct(rs);
      records := rs;
      writes := writes + 1;
    }

    /** `upsert_http01_records`: every given token ends up mapped to its
        key authorisation and every other record is kept; the records are
        written back, sorted, only when some value differed. Returns the
        number of pairs given. */
    method Upsert(tokens: map<string, string>) returns (count: nat)
      modifies this
      requires Valid()
      ensures Valid() && present
      ensures Contents() == old(Contents()) + tokens
      ensures count == |tokens|
      ensures UpsertChanges(old(Contents()), tokens) ==> SortedByName(records) && writes == old(writes) + 1
      ensures !UpsertChanges(old(Contents()), tokens) ==> records == old(records) && writes == old(writes)
    {
      EnsureStringDg();
      var existing := RecordMap(records);
      assert existing == old(Contents());
      var merged, changed := MergeTokens(existing, tokens);
      if changed {
        WriteSorted(merged);
      } else {
        UnchangedMerge(existing, tokens);
      }
      count := |tokens|;
    }

    /** `delete_http01_tokens`: exactly the listed tokens that exist are
        removed and the rest kept; the records are written back, sorted,
        only when something was removed. Returns the number of tokens
        listed. */
    method Delete(tokens: seq<string>) returns (count: nat)
      modifies this
      requires Valid()
      ensures Valid() && present
      ensures Contents() == Without(old(Contents()), tokens)
      ensures count == |tokens|
      ensures DeleteChanges(old(Contents()), tokens) ==> SortedByName(records) && writes == old(writes) + 1
      ensures !DeleteChanges(old(Contents()), tokens) ==> records == old(records) && writes == old(writes)
    {
      EnsureStringDg();
      var existing := RecordMap(records);
      assert existing == old(Contents());
      var kept, changed := DropTokens(existing, tokens);
      if changed {
        WriteSorted(kept);
      }
      count := |tokens|;
    }
  }

  /** `[{"name": k, "data": v} for k, v in sorted(m.items())]`: the
      entries of `m` as records sorted by name. */
  method SortRecords(m: map<string, string>) returns (rs: seq<Record>)
    ensures SortedByName(rs) && RecordMap(rs) == m
  {
    rs := [];
    var todo := m.Keys;
    ghost var done: set<string> := {};
    while todo != {}
      invariant todo <= m.Keys && done == m.Keys - todo
      invariant SortedByName(rs) && RecordMap(rs) == Restrict(m, done)
      decreases todo
    {
      var k :| k in todo;
      InsertSorted(rs, Record(k, m[k]));
      InsertMap(rs, Record(k, m[k]));
      RestrictGrow(m, done, k);
      rs := Insert(rs, Record(k, m[k]));
      todo := todo - {k};
      done := done + {k};
    }
    assert Restrict(m, done) == m;
  }

  /** The loop of `upsert_http01_records` over the given pairs: each
      token whose current value differs is set, and the change is
      recorded. */
  method MergeTokens(existing: map<string, string>, tokens: map<string, string>)
    returns (merged: map<string, string>, changed: bool)
    ensures merged == existing + tokens
    ensures changed <==> UpsertChanges(existing, tokens)
  {
    merged := existing;
    changed := false;
    ghost var done: set<string> := {};
    var todo := tokens.Keys;
    while todo != {}
      invariant todo <= tokens.Keys && done == tokens.Keys - todo
      invariant merged == existing + Restrict(tokens, done)
      invariant changed <==> UpsertChanges(existing, Restrict(tokens, done))
      decreases todo
    {
      var tok :| tok in todo;
      UpsertStep(existing, tokens, done, tok);
      if tok !in merged || merged[tok] != tokens[tok] {
        merged := merged[tok := tokens[tok]];
        changed := true;
      } else {
        assert merged[tok := tokens[tok]] == merged;
      }
      todo := todo - {tok};
      done := done + {tok};
    }
    assert Restrict(tokens, done) == tokens;
  }

  /** The loop of `delete_http01_tokens` over the listed tokens: each one
      present is removed, and the change is recorded. */
  method DropTokens(existing: map<string, string>, tokens: seq<string>)
    returns (kept: map<string, string>, changed: bool)
    ensures kept == Without(existing, tokens)
    ensures changed <==> DeleteChanges(existing, tokens)
  {
    kept := existing;
    changed := false;
    var i := 0;
    while i < |tokens|
      invariant 0 <= i <= |tokens|
      invariant kept == Without(existing, tokens[..i])
      invariant changed <==> exists j :: 0 <= j < i && tokens[j] in existing
    {
      if tokens[i] in kept {
        kept := kept - {tokens[i]};
        changed := true;
      }
      assert tokens[..i + 1] == tokens[..i] + [tokens[i]];
      i := i + 1;
    }
    assert tokens[..i] == tokens;
  }

  /** One step of the upsert loop: the token not yet visited still has
      its old value, and visiting it updates the map and the verdict. */
  lemma UpsertStep(before: map<string, string>, tokens: map<string, string>, done: set<string>, tok: string)
    requires tok in tokens && tok !in done
    ensures var cur := before + Restrict(tokens, done);
      (tok in cur <==> tok in before) && (tok in before ==> cur[tok] == before[tok])
    ensures before + Restrict(tokens, done + {tok}) == (before + Restrict(tokens, done))[tok := tokens[tok]]
    ensures UpsertChanges(before, Restrict(tokens, done + {tok}))
      <==> UpsertChanges(before, Restrict(tokens, done)) || tok !in before || before[tok] != tokens[tok]
  {
    RestrictGrow(tokens, done, tok);
    var r := Restrict(tokens, done);
    var r' := Restrict(tokens, done + {tok});
    if UpsertChanges(before, r') && !(tok !in before || before[tok] != tokens[tok]) {
      var t :| t in r' && (t !in before || before[t] != r'[t]);
      assert t in r;
    }
    if UpsertChanges(before, r) {
      var t :| t in r && (t !in before || before[t] != r[t]);
      assert t in r';
    }
  }

  /** When no value differs, merging the tokens leaves the map as it was. */
  lemma UnchangedMerge(existing: map<string, string>, tokens: map<string, string>)
    requires !UpsertChanges(existing, tokens)
    ensures existing + tokens == existing
  {
  }

  /** Repeating an upsert finds nothing to change, so it does not write. */
  lemma UpsertIdempotent(existing: map<string, string>, tokens: map<string, string>)
    ensures !UpsertChanges(existing + tokens, tokens)
  {
  }

  /** Deleting a token that was just upserted removes it, and deleting
      tokens no record has changes nothing. */
  lemma DeleteAfterUpsert(existing: map<string, string>, tokens: map<string, string>, listed: seq<string>)
    ensures forall t :: t in tokens && t in listed ==> t !in Without(existing + tokens, listed)
    ensures (forall i :: 0 <= i < |listed| ==> listed[i] !in existing) ==> Without(existing, listed) == existing
  {
  }

  // ------------------------------------------------------------------
  // REST paths
  // ------------------------------------------------------------------

  /** `_dg_path`: `/mgmt/tm/ltm/data-group/internal/~<partition>~<name>`
      with the partition's slashes trimmed. */
  function DgPath(partition: string, name: string): (r: string)
    ensures StartsWith(r, DgCollection) && IsSuffix("~" + name, r)
    ensures |r| == |DgCollection| + |StripChar(partition, '/')| + 1 + |name|
    ensures r[|DgCollection|..|r| - |name| - 1] == StripChar(partition, '/')
    ensures var part := r[|DgCollection|..|r| - |name| - 1];
            part == [] || (part[0] != '/' && part[|part| - 1] != '/')
  {
    var r := DgCollection + StripChar(partition, '/') + "~" + name;
    assert r[|DgCollection|..|r| - |name| - 1] == StripChar(partition, '/');
    r
  }

  const DgCollection := "/mgmt/tm/ltm/data-group/internal/~"

  /** `/<partition stripped of slashes>/<name>`: the full path of a BIG-IP
      object. */
  function FullPath(partition: string, name: string): (r: string)
    ensures StartsWith(r, "/") && IsSuffix("/" + name, r)
    ensures |r| == |StripChar(partition, '/')| + |name| + 2
    ensures r[1..|r| - |name| - 1] == StripChar(partition, '/')
    ensures var part := r[1..|r| - |name| - 1];
            part == [] || (part[0] != '/' && part[|part| - 1] != '/')
  {
    var r := "/" + StripChar(partition, '/') + "/" + name;
    assert r[1..|r| - |name| - 1] == StripChar(partition, '/');
    r
  }

  const ClientSslCollection := "/mgmt/tm/ltm/profile/client-ssl/"

  /** The REST path of a client-ssl profile: the profile's own `/` become
      `~`, so the profile is a single path segment. */
  function ProfileRestPath(profile: string): (r: string)
    ensures StartsWith(r, ClientSslCollection)
    ensures '/' !in r[|ClientSslCollection|..]
  {
    ClientSslCollection + Replace(profile, '/', "~")
  }

  /** `ensure_client_ssl_profile`'s outcome: the profile's full path, or
      the HTTP status that made it fail, and whether it was created. */
  datatype EnsureOutcome = EnsureOutcome(path: Result<string, int>, created: bool)

  /** `raise_for_status` raises for the client and server error codes. */
  predicate HttpError(status: int) { 400 <= status < 600 }

  /** `ensure_clientssl_profile` given the statuses of its lookup and of
      the create request it sends after a 404: an existing profile is
      kept, a 404 creates it, and an error of the create request or any
      other error of the lookup propagates. */
  function EnsureClientsslProfile(partition: string, name: string, lookupStatus: int, createStatus: int): (o: EnsureOutcome)
    ensures o.path.Success? <==> !HttpError(lookupStatus) || (lookupStatus == 404 && !HttpError(createStatus))
    ensures o.path.Success? ==> o.path.value == FullPath(partition, name)
    ensures o.created <==> lookupStatus == 404 && !HttpError(createStatus)
    ensures o.path.Failure? && lookupStatus == 404 ==> o.path.error == createStatus
    ensures o.path.Failure? && lookupStatus != 404 ==> o.path.error == lookupStatus
  {
    var prof := FullPath(partition, name);
    if !HttpError(lookupStatus) then EnsureOutcome(Success(prof), false)
    else if lookupStatus != 404 then EnsureOutcome(Failure(lookupStatus), false)
    else if HttpError(createStatus) then EnsureOutcome(Failure(createStatus), false)
    else EnsureOutcome(Success(prof), true)
  }

  /** However the partition is written (`Common`, `/Common`, `Common/`,
      `/Common/`), the data-group and object paths come out the same. */
  lemma PartitionSpellings(partition: string, name: string)
    requires partition != [] && partition[0] != '/' && partition[|partition| - 1] != '/'
    ensures DgPath("/" + partition, name) == DgPath(partition, name)
    ensures DgPath(partition + "/", name) == DgPath(partition, name)
    ensures DgPath("/" + partition + "/", name) == DgPath(partition, name)
    ensures FullPath("/" + partition, name) == FullPath(partition, name)
    ensures FullPath(partition + "/", name) == FullPath(partition, name)
    ensures FullPath("/" + partition + "/", name) == FullPath(partition, name)
    ensures FullPath(partition, name) == "/" + partition + "/" + name
  {
    StripCharWrapped(partition, '/');
  }

  // ------------------------------------------------------------------
  // Attaching the certificate to a client-ssl profile
  // ------------------------------------------------------------------

  /** The default cert-key-chain entry: full paths of the key, the
      certificate and the chain. */
  datatype CertKeyChain = CertKeyChain(key: string, cert: string, chain: string)

  /** What `attach_to_clientssl` PATCHes: the profile, its REST path and
      the entry. */
  datatype AttachRequest = AttachRequest(profile: string, path: string, entry: CertKeyChain)

  /** The profile `attach_to_clientssl` resolves as written: a relative
      name is joined to the partition exactly as given, neither stripped
      nor given a leading `/`. */
  function AttachProfileAsWritten(partition: string, profile: string): (r: string)
    ensures StartsWith(profile, "/") ==> r == profile
    ensures !StartsWith(profile, "/") && partition != "" ==> (StartsWith(r, "/") <==> partition[0] == '/')
  {
    if StartsWith(profile, "/") then profile
    else
      var r := partition + "/" + profile;
      assert partition != "" ==> r[0] == partition[0];
      assert StartsWith(r, "/") <==> r[0] == '/';
      r
  }

  /** The profile resolved as every other path of the adapter is: a
      relative name goes under the stripped partition. */
  function AttachProfile(partition: string, profile: string): (r: string)
    ensures StartsWith(r, "/")
  {
    if StartsWith(profile, "/") then profile else FullPath(partition, profile)
  }

  /** `attach_to_clientssl`'s request, with the profile resolved by
      `AttachProfile`. */
  function Attach(partition: string, profile: string, keyname: string, certname: string, chainname: string): (a: AttachRequest)
    ensures StartsWith(a.profile, "/") && a.path == ProfileRestPath(a.profile)
    ensures StartsWith(profile, "/") ==> a.profile == profile
    ensures !StartsWith(profile, "/") ==> a.profile == FullPath(partition, profile)
    ensures a.entry == CertKeyChain(FullPath(partition, keyname), FullPath(partition, certname), FullPath(partition, chainname))
  {
    var prof := AttachProfile(partition, profile);
    AttachRequest(prof, ProfileRestPath(prof),
      CertKeyChain(FullPath(partition, keyname), FullPath(partition, certname), FullPath(partition, chainname)))
  }

  /** The attach goes to the profile `ensure_clientssl_profile` returned,
      and the key, certificate and chain it names sit in that profile's
      folder under their own names. */
  lemma AttachTargetsEnsured(partition: string, name: string, keyname: string, certname: string,
                             chainname: string, lookupStatus: int, createStatus: int)
    requires !StartsWith(name, "/")
    requires EnsureClientsslProfile(partition, name, lookupStatus, createStatus).path.Success?
    ensures var a := Attach(partition, name, keyname, certname, chainname);
            var folder := "/" + StripChar(partition, '/') + "/";
            && a.profile == EnsureClientsslProfile(partition, name, lookupStatus, createStatus).path.value
            && a.path == ProfileRestPath(EnsureClientsslProfile(partition, name, lookupStatus, createStatus).path.value)
            && StartsWith(a.profile, folder) && a.profile[|folder|..] == name
            && StartsWith(a.entry.key, folder) && a.entry.key[|folder|..] == keyname
            && StartsWith(a.entry.cert, folder) && a.entry.cert[|folder|..] == certname
            && StartsWith(a.entry.chain, folder) && a.entry.chain[|folder|..] == chainname
  {
    var folder := "/" + StripChar(partition, '/') + "/";
    assert FullPath(partition, name) == folder + name;
    assert FullPath(partition, keyname) == folder + keyname;
    assert FullPath(partition, certname) == folder + certname;
    assert FullPath(partition, chainname) == folder + chainname;
  }

  /** As written, the attach only finds the profile when the partition
      carries its leading `/`: given `Common` instead of `/Common`, its
      REST path starts `Common~` where the profile's starts `~Common~`. */
  lemma AttachAsWrittenMissesProfile(partition: string, name: string)
    requires partition != [] && partition[0] != '/' && partition[0] != '~' && partition[|partition| - 1] != '/'
    requires !StartsWith(name, "/")
    ensures AttachProfileAsWritten("/" + partition, name) == FullPath(partition, name)
    ensures ProfileRestPath(AttachProfileAsWritten(partition, name)) != ProfileRestPath(FullPath(partition, name))
  {
    StripCharWrapped(partition, '/');
    var w := AttachProfileAsWritten(partition, name);
    var f := FullPath(partition, name);
    assert w[0] == partition[0] && f[0] == '/';
    assert Replace(w, '/', "~")[0] == partition[0];
    assert Replace(f, '/', "~")[0] == '~';
    var n := |ClientSslCollection|;
    assert ProfileRestPath(w)[n] == partition[0];
    assert ProfileRestPath(f)[n] == '~';
  }
}
