/** The two paginated request generators (`SpaceAPI.request` and
    `OpenProjectAPI.request`), modelled as a loop with an explicit cursor.

    A server is a function from the cursor a request carries (`None` on the
    first request, which has no `$skip` or `offset` parameter) to the
    decoded response.  A protocol's step function says what one response
    makes the generator do: which items it yields, and whether it then
    stops, raises, or asks for the next page.  Draining the generator
    (`list(...)`) gives a `Stream`: the items yielded, and the exception
    raised after them, if any. */
module Pagination {
  import opened Base

  /** What draining a generator produced: every yielded item, in order,
      and the exception that ended it, if it did not end normally. */
  datatype Stream<T> = Stream(items: seq<T>, failure: Option<Error>)

  /** What the generator does after yielding a page's items. */
  datatype Next = Stop | Fail(error: Error) | Continue(cursor: int)

  datatype Step<T> = Step(yielded: seq<T>, next: Next)

  /** A stream with `xs` yielded before it. */
  function Prepend<T>(xs: seq<T>, s: Option<Stream<T>>): Option<Stream<T>> {
    match s
    case None => None
    case Some(st) => Some(Stream(xs + st.items, st.failure))
  }

  /** The stream a generator produces when it may send at most `fuel`
      requests, starting from `cursor`; `None` when that is not enough. */
  function Fetch<R, T>(server: Option<int> -> R, step: (R, Option<int>) -> Step<T>,
                       cursor: Option<int>, fuel: nat): Option<Stream<T>>
    decreases fuel
  {
    if fuel == 0 then None
    else
      var s := step(server(cursor), cursor);
      match s.next
      case Stop => Some(Stream(s.yielded, None))
      case Fail(e) => Some(Stream(s.yielded, Some(e)))
      case Continue(c) => Prepend(s.yielded, Fetch(server, step, Some(c), fuel - 1))
  }

  lemma {:induction false} PrependNothing<T>(s: Option<Stream<T>>)
    ensures Prepend([], s) == s
  {
    if s.Some? {
      assert [] + s.value.items == s.value.items;
    }
  }

  lemma {:induction false} PrependTwice<T>(xs: seq<T>, ys: seq<T>, s: Option<Stream<T>>)
    ensures Prepend(xs, Prepend(ys, s)) == Prepend(xs + ys, s)
  {
    if s.Some? {
      assert xs + (ys + s.value.items) == (xs + ys) + s.value.items;
    }
  }

  /** Once some number of requests suffices, more allowed requests change
      nothing: the stream does not depend on the fuel. */
  lemma {:induction false} FetchMoreFuel<R, T>(server: Option<int> -> R, step: (R, Option<int>) -> Step<T>,
                                              cursor: Option<int>, n: nat, m: nat)
    requires n <= m && Fetch(server, step, cursor, n).Some?
    ensures Fetch(server, step, cursor, m) == Fetch(server, step, cursor, n)
    decreases n
  {
    var s := step(server(cursor), cursor);
    if s.next.Continue? {
      FetchMoreFuel(server, step, Some(s.next.cursor), n - 1, m - 1);
    }
  }

  /** Where the generator stands after `n` requests that all asked for a
      next page: the cursor of the next request and the items yielded so
      far; `None` when one of them stopped or failed the generator. */
  ghost function Walk<R, T>(server: Option<int> -> R, step: (R, Option<int>) -> Step<T>, n: nat)
    : Option<(Option<int>, seq<T>)>
  {
    if n == 0 then Some((None, []))
    else match Walk(server, step, n - 1)
      case None => None
      case Some((c, xs)) =>
        var s := step(server(c), c);
        if s.next.Continue? then Some((Some(s.next.cursor), xs + s.yielded)) else None
  }

  /** The stream seen from `n` requests in: what was yielded so far,
      followed by the stream the remaining requests produce. */
  lemma {:induction false} WalkFetch<R, T>(server: Option<int> -> R, step: (R, Option<int>) -> Step<T>,
                                          n: nat, m: nat)
    requires Walk(server, step, n).Some?
    ensures var (c, xs) := Walk(server, step, n).value;
            Fetch(server, step, None, n + m) == Prepend(xs, Fetch(server, step, c, m))
    decreases n
  {
    if n == 0 {
      PrependNothing(Fetch(server, step, None, m));
    } else {
      var (c0, xs0) := Walk(server, step, n - 1).value;
      var s := step(server(c0), c0);
      WalkFetch(server, step, n - 1, m + 1);
      assert Fetch(server, step, c0, m + 1) == Prepend(s.yielded, Fetch(server, step, Some(s.next.cursor), m));
      PrependTwice(xs0, s.yielded, Fetch(server, step, Some(s.next.cursor), m));
    }
  }

  /** `list(request(...))`: sends requests until a response stops or fails
      the generator, concatenating the items of every page.  `requests` is
      the number of requests sent, which is exactly as many as the stream
      needs. */
  method Drain<R, T>(server: Option<int> -> R, step: (R, Option<int>) -> Step<T>, ghost fuel: nat)
    returns (out: Stream<T>, requests: nat)
    requires Fetch(server, step, None, fuel).Some?
    ensures Fetch(server, step, None, fuel) == Some(out)
    ensures 0 < requests <= fuel
    ensures Fetch(server, step, None, requests) == Some(out)
    ensures Fetch(server, step, None, requests - 1).None?
  {
    var cursor: Option<int> := None;
    var items: seq<T> := [];
    requests := 0;
    while true
      invariant requests <= fuel
      invariant Walk(server, step, requests) == Some((cursor, items))
      invariant Fetch(server, step, cursor, fuel - requests).Some?
      decreases fuel - requests
    {
      var s := step(server(cursor), cursor);
      WalkFetch(server, step, requests, 0);
      if s.next.Continue? {
        items := items + s.yielded;
        cursor := Some(s.next.cursor);
        requests := requests + 1;
      } else {
        WalkFetch(server, step, requests, 1);
        WalkFetch(server, step, requests, fuel - requests);
        FetchMoreFuel(server, step, cursor, 1, fuel - requests);
        out := Stream(items + s.yielded, if s.next.Fail? then Some(s.next.error) else None);
        requests := requests + 1;
        return;
      }
    }
  }

  /** `next(request(...))`: the first item the generator yields.  A
      generator whose first response yields nothing either raised or
      stopped, and `next` then raises `StopIteration`. */
  function First<T>(s: Step<T>): (r: Result<T>)
    requires s.next.Continue? ==> s.yielded != []
    ensures r.Ok? <==> s.yielded != []
    ensures r.Ok? ==> r.value == s.yielded[0]
    ensures r.Err? ==> r.error == (if s.next.Fail? then s.next.error else StopIteration)
  {
    if s.yielded != [] then Ok(s.yielded[0])
    else match s.next
      case Fail(e) => Err(e)
      case Stop => Err(StopIteration)
  }

  /** `next` agrees with draining: it returns the first item of the stream,
      or raises what the stream ended with (or `StopIteration`). */
  lemma {:induction false} FirstIsHeadOfStream<R, T>(server: Option<int> -> R, step: (R, Option<int>) -> Step<T>,
                                                    fuel: nat)
    requires Fetch(server, step, None, fuel).Some?
    requires var s := step(server(None), None); s.next.Continue? ==> s.yielded != []
    ensures var st := Fetch(server, step, None, fuel).value;
            First(step(server(None), None))
              == if st.items != [] then Ok(st.items[0]) else Err(st.failure.GetOr(StopIteration))
  {
    var s := step(server(None), None);
    var st := Fetch(server, step, None, fuel).value;
    if s.next.Continue? {
      assert st.items == s.yielded + Fetch(server, step, Some(s.next.cursor), fuel - 1).value.items;
      assert st.items[0] == s.yielded[0];
    }
  }

  /** Two cursors that get the same step from a server give the same
      stream. */
  lemma {:induction false} FetchSameStep<R, T>(server: Option<int> -> R, step: (R, Option<int>) -> Step<T>,
                                              c: Option<int>, d: Option<int>, fuel: nat)
    requires step(server(c), c) == step(server(d), d)
    ensures Fetch(server, step, c, fuel) == Fetch(server, step, d, fuel)
  {
  }

  /** The items of consecutive pages, in order. */
  function Concat<T>(pages: seq<seq<T>>): seq<T> {
    if pages == [] then [] else pages[0] + Concat(pages[1..])
  }

  /** The responses from `c` on yield `pages`, one page per request, and
      the last of them ends the generator, raising `end` if it is given. */
  ghost predicate Chain<R, T>(server: Option<int> -> R, step: (R, Option<int>) -> Step<T>,
                              c: Option<int>, pages: seq<seq<T>>, end: Option<Error>)
    decreases |pages|
  {
    |pages| > 0 &&
    var s := step(server(c), c);
    s.yielded == pages[0] &&
    if |pages| == 1 then s.next == (if end.Some? then Fail(end.value) else Stop)
    else s.next.Continue? && Chain(server, step, Some(s.next.cursor), pages[1..], end)
  }

  /** A chain of pages is fetched with one request per page, and the
      stream is their concatenation. */
  lemma {:induction false} ChainFetch<R, T>(server: Option<int> -> R, step: (R, Option<int>) -> Step<T>,
                                           c: Option<int>, pages: seq<seq<T>>, end: Option<Error>)
    requires Chain(server, step, c, pages, end)
    ensures Fetch(server, step, c, |pages|) == Some(Stream(Concat(pages), end))
    decreases |pages|
  {
    var s := step(server(c), c);
    if |pages| == 1 {
      assert Concat(pages) == pages[0] + Concat(pages[1..]);
      assert pages[0] + [] == pages[0];
    } else {
      ChainFetch(server, step, Some(s.next.cursor), pages[1..], end);
    }
  }

  /** From cursor `Some(p)` on, every request that asks for more asks for
      the next page number, and only pages below `bound` do. */
  ghost predicate AdvancesBelow<R, T>(server: Option<int> -> R, step: (R, Option<int>) -> Step<T>, q: int, bound: int) {
    var s := step(server(Some(q)), Some(q));
    s.next.Continue? ==> s.next.cursor == q + 1 && q < bound
  }

  /** A generator that walks page numbers upwards and stops asking before
      `bound` ends within `bound - p + 1` requests from page `p`. */
  lemma {:induction false} FetchEndsBelow<R, T>(server: Option<int> -> R, step: (R, Option<int>) -> Step<T>,
                                               p: int, bound: int)
    requires p <= bound
    requires forall q :: p <= q ==> AdvancesBelow(server, step, q, bound)
    ensures Fetch(server, step, Some(p), bound - p + 1).Some?
    decreases bound - p
  {
    assert AdvancesBelow(server, step, p, bound);
    var s := step(server(Some(p)), Some(p));
    if s.next.Continue? {
      FetchEndsBelow(server, step, p + 1, bound);
    }
  }

  /** The responses from `c` on yield `pages`, one page per request, the
      last of them ending the generator normally, except that any request
      may instead be refused with an HTTP error before yielding anything. */
  ghost predicate ChainUnlessRefused<R, T>(server: Option<int> -> R, step: (R, Option<int>) -> Step<T>,
                                         c: Option<int>, pages: seq<seq<T>>)
    decreases |pages|
  {
    |pages| > 0 &&
    var s := step(server(c), c);
    if s.next.Fail? then s.yielded == [] && s.next.error.HttpError? && IsErrorStatus(s.next.error.status)
    else
      s.yielded == pages[0] &&
      if |pages| == 1 then s.next == Stop
      else s.next.Continue? && ChainUnlessRefused(server, step, Some(s.next.cursor), pages[1..])
  }

  /** Fetching such a chain either yields all of its pages without an
      exception, or ends on the HTTP error of a refused request. */
  lemma {:induction false} ChainUnlessRefusedFetch<R, T>(server: Option<int> -> R, step: (R, Option<int>) -> Step<T>,
                                                       c: Option<int>, pages: seq<seq<T>>)
    requires ChainUnlessRefused(server, step, c, pages)
    ensures var f := Fetch(server, step, c, |pages|);
            f.Some?
            && (f.value.failure.None? ==> f.value.items == Concat(pages))
            && (f.value.failure.Some? ==> f.value.failure.value.HttpError?
                                          && IsErrorStatus(f.value.failure.value.status))
    decreases |pages|
  {
    var s := step(server(c), c);
    if s.next.Fail? {
    } else if |pages| == 1 {
      assert Concat(pages) == pages[0] + Concat(pages[1..]);
      assert pages[0] + [] == pages[0];
    } else {
      ChainUnlessRefusedFetch(server, step, Some(s.next.cursor), pages[1..]);
    }
  }

  // ---------------------------------------------------------------- Space

  /** A decoded Space response.  `data`, `next` and `totalCount` are
      `None` when the key is absent; `whole` is the response itself seen as
      one of the objects the generator yields. */
  datatype SpaceResponse<T> =
    SpaceResponse(status: int, data: Option<seq<T>>, next: Option<int>, totalCount: Option<int>, whole: T)

  /** One round of `SpaceAPI.request`.  An error status raises before
      anything is yielded; a response without data (missing or empty) is
      yielded whole and ends the generator; otherwise its data is yielded,
      and the next page is requested with `$skip` set to `next` while
      `next` is below `totalCount`.  The cursor plays no part: the server
      has already used it. */
  function SpaceStep<T>(r: SpaceResponse<T>, cursor: Option<int>): (s: Step<T>)
    ensures IsErrorStatus(r.status) ==> s == Step([], Fail(HttpError(r.status)))
    ensures !IsErrorStatus(r.status) && (r.data.None? || r.data.value == []) ==> s == Step([r.whole], Stop)
    ensures s.next.Continue? ==> s.yielded != [] && r.next == Some(s.next.cursor)
                                 && r.totalCount.Some? && s.next.cursor < r.totalCount.value
  {
    if IsErrorStatus(r.status) then Step([], Fail(HttpError(r.status)))
    else if r.data.None? || r.data.value == [] then Step([r.whole], Stop)
    else if r.next.None? then Step(r.data.value, Fail(KeyError(Field("next"))))
    else if r.totalCount.None? then Step(r.data.value, Fail(KeyError(Field("totalCount"))))
    else if r.next.value < r.totalCount.value then Step(r.data.value, Continue(r.next.value))
    else Step(r.data.value, Stop)
  }

  /** The `$skip` a request carries: none on the first request. */
  function Skip(cursor: Option<int>): int {
    cursor.GetOr(0)
  }

  /** Where a page of `size` that starts at `lo` ends in a list of `len`. */
  function PageEnd(len: nat, size: nat, lo: nat): (hi: nat)
    requires lo <= len
    ensures lo <= hi <= len
    ensures 0 < size && lo < len ==> lo < hi
  {
    if lo + size <= len then lo + size else len
  }

  /** A Space server that lists `xs` in pages of `size`, starting each page
      at the `$skip` it is given and reporting, as `next`, where the page
      after it starts. */
  function SpaceListing<T>(xs: seq<T>, size: nat, envelope: T): Option<int> -> SpaceResponse<T> {
    (c: Option<int>) => SpaceListingResponse(xs, size, envelope, Skip(c))
  }

  function SpaceListingResponse<T>(xs: seq<T>, size: nat, envelope: T, skip: int): SpaceResponse<T> {
    var lo := if 0 <= skip <= |xs| then skip else |xs|;
    var hi := PageEnd(|xs|, size, lo);
    SpaceResponse(200, Some(xs[lo..hi]), Some(hi), Some(|xs|), envelope)
  }

  /** The pages of `xs` from `lo` on. */
  function SpacePages<T>(xs: seq<T>, size: nat, lo: nat): (pages: seq<seq<T>>)
    requires 0 < size && lo < |xs|
    ensures 0 < |pages| <= |xs| - lo
    ensures Concat(pages) == xs[lo..]
    decreases |xs| - lo
  {
    var hi := PageEnd(|xs|, size, lo);
    if hi == |xs| then
      assert Concat([xs[lo..hi]]) == xs[lo..hi] + Concat([]);
      [xs[lo..hi]]
    else
      var rest := SpacePages(xs, size, hi);
      assert ([xs[lo..hi]] + rest)[1..] == rest;
      assert xs[lo..hi] + xs[hi..] == xs[lo..];
      [xs[lo..hi]] + rest
  }

  lemma {:induction false} SpaceListingChain<T>(xs: seq<T>, size: nat, envelope: T, lo: nat)
    requires 0 < size && lo < |xs|
    ensures Chain(SpaceListing(xs, size, envelope), SpaceStep, Some(lo), SpacePages(xs, size, lo), None)
    decreases |xs| - lo
  {
    var hi := PageEnd(|xs|, size, lo);
    var r := SpaceListing(xs, size, envelope)(Some(lo));
    assert r == SpaceResponse(200, Some(xs[lo..hi]), Some(hi), Some(|xs|), envelope);
    if hi < |xs| {
      SpaceListingChain(xs, size, envelope, hi);
      assert SpacePages(xs, size, lo)[1..] == SpacePages(xs, size, hi);
    }
  }

  /** A well-behaved listing is read completely, page after page, in
      order — except that an empty listing has no data, so its envelope is
      yielded instead. */
  lemma {:induction false} SpaceListingYieldsAll<T>(xs: seq<T>, size: nat, envelope: T)
    requires 0 < size
    ensures xs != [] ==> Fetch(SpaceListing(xs, size, envelope), SpaceStep, None, |xs|) == Some(Stream(xs, None))
    ensures xs == [] ==> Fetch(SpaceListing(xs, size, envelope), SpaceStep, None, 1) == Some(Stream([envelope], None))
  {
    var server := SpaceListing(xs, size, envelope);
    if xs != [] {
      var pages := SpacePages(xs, size, 0);
      SpaceListingChain(xs, size, envelope, 0);
      ChainFetch(server, SpaceStep, Some(0), pages, None);
      FetchMoreFuel(server, SpaceStep, Some(0), |pages|, |xs|);
      assert server(None) == server(Some(0));
      FetchSameStep(server, SpaceStep, None, Some(0), |xs|);
      assert xs[0..] == xs;
    } else {
      assert server(None).data == Some([]);
    }
  }

  // ---------------------------------------------------------- OpenProject

  /** A decoded OpenProject response: `total` and `count` are `None` when
      absent; `embedded` is `None` when `_embedded` is absent and
      `Some(None)` when `_embedded` has no `elements`. */
  datatype OpenProjectResponse<T> =
    OpenProjectResponse(status: int, total: Option<int>, embedded: Option<Option<seq<T>>>, count: Option<int>, whole: T)

  /** The page a request asks for: its `offset`, 1 when it has none. */
  function Page(cursor: Option<int>): int {
    cursor.GetOr(1)
  }

  /** One round of `OpenProjectAPI.request`.  An error status raises
      before anything is yielded and 204 (No Content) ends the generator
      silently.  A response without `total` is not a collection and is
      yielded whole.  A collection must carry `_embedded.elements`; an
      empty page ends the generator; otherwise its elements are yielded
      and, unless `count` equals `total`, the next page is requested. */
  function OpenProjectStep<T>(r: OpenProjectResponse<T>, cursor: Option<int>): (s: Step<T>)
    ensures IsErrorStatus(r.status) ==> s == Step([], Fail(HttpError(r.status)))
    ensures !IsErrorStatus(r.status) && r.status == 204 ==> s == Step([], Stop)
    ensures !IsErrorStatus(r.status) && r.status != 204 && r.total.None? ==> s == Step([r.whole], Stop)
    ensures !IsErrorStatus(r.status) && r.status != 204 && r.total.Some? ==>
              && (r.embedded.None? ==> s == Step([], Fail(KeyError(Field("_embedded")))))
              && (r.embedded == Some(None) ==> s == Step([], Fail(KeyError(Field("elements")))))
              && (r.embedded == Some(Some([])) ==> s == Step([], Stop))
    ensures s.next.Continue? ==> s.yielded != [] && s.next.cursor == Page(cursor) + 1
                                 && r.count != r.total
  {
    if IsErrorStatus(r.status) then Step([], Fail(HttpError(r.status)))
    else if r.status == 204 then Step([], Stop)
    else if r.total.None? then Step([r.whole], Stop)
    else if r.embedded.None? then Step([], Fail(KeyError(Field("_embedded"))))
    else if r.embedded.value.None? then Step([], Fail(KeyError(Field("elements"))))
    else
      var elements := r.embedded.value.value;
      if elements == [] then Step([], Stop)
      else if r.count.None? then Step(elements, Fail(KeyError(Field("count"))))
      else if r.count.value == r.total.value then Step(elements, Stop)
      else Step(elements, Continue(Page(cursor) + 1))
  }

  /** Where page `p` (counted from 1) starts when a list of `len` items
      is cut into pages of `size`: `(p - 1) * size`, or the end of the list
      for pages past it. */
  function PageStart(len: nat, size: nat, p: int): (lo: nat)
    ensures lo <= len
    decreases p
  {
    if p < 1 then len
    else if p == 1 then 0
    else PageEnd(len, size, PageStart(len, size, p - 1))
  }

  /** A page past the first starts at least one item further on, until the
      end of the list. */
  lemma {:induction false} PageStartGrows(len: nat, size: nat, p: int)
    requires 0 < size && 1 <= p
    ensures PageStart(len, size, p) >= if p - 1 <= len then p - 1 else len
    decreases p
  {
    if p > 1 {
      PageStartGrows(len, size, p - 1);
    }
  }

  /** An OpenProject server that lists `xs` in pages of `size`; the
      request for page `p` is answered with status `status(p)`. */
  function OpenProjectListing<T>(xs: seq<T>, size: nat, status: int -> int, whole: T)
    : Option<int> -> OpenProjectResponse<T>
  {
    (c: Option<int>) => OpenProjectListingResponse(xs, size, status, whole, Page(c))
  }

  function OpenProjectListingResponse<T>(xs: seq<T>, size: nat, status: int -> int, whole: T, p: int)
    : OpenProjectResponse<T>
  {
    var lo := PageStart(|xs|, size, p);
    var page := if 1 <= p then xs[lo..PageEnd(|xs|, size, lo)] else [];
    OpenProjectResponse(status(p), Some(|xs|), Some(Some(page)), Some(|page|), whole)
  }

  /** The pages of `xs` from page `p` on, up to and including the one the
      generator stops at: the page whose count is the total, or the first
      empty one. */
  function OpenProjectPages<T>(xs: seq<T>, size: nat, p: int): (pages: seq<seq<T>>)
    requires 0 < size && 1 <= p
    ensures 0 < |pages| <= |xs| - PageStart(|xs|, size, p) + 1
    ensures Concat(pages) == xs[PageStart(|xs|, size, p)..]
    decreases |xs| - PageStart(|xs|, size, p)
  {
    var lo := PageStart(|xs|, size, p);
    var hi := PageEnd(|xs|, size, lo);
    if lo == hi || hi - lo == |xs| then
      assert Concat([xs[lo..hi]]) == xs[lo..hi] + Concat([]);
      [xs[lo..hi]]
    else
      var rest := OpenProjectPages(xs, size, p + 1);
      assert ([xs[lo..hi]] + rest)[1..] == rest;
      assert xs[lo..hi] + xs[hi..] == xs[lo..];
      [xs[lo..hi]] + rest
  }

  lemma {:induction false} OpenProjectListingChain<T>(xs: seq<T>, size: nat, status: int -> int, whole: T, p: int)
    requires 0 < size && 1 <= p
    requires forall q :: p <= q ==> !IsErrorStatus(status(q)) && status(q) != 204
    ensures Chain(OpenProjectListing(xs, size, status, whole), OpenProjectStep, Some(p),
                  OpenProjectPages(xs, size, p), None)
    decreases |xs| - PageStart(|xs|, size, p)
  {
    var lo := PageStart(|xs|, size, p);
    var hi := PageEnd(|xs|, size, lo);
    var r := OpenProjectListing(xs, size, status, whole)(Some(p));
    assert r == OpenProjectResponse(status(p), Some(|xs|), Some(Some(xs[lo..hi])), Some(hi - lo), whole);
    assert !IsErrorStatus(status(p)) && status(p) != 204;
    if !(lo == hi || hi - lo == |xs|) {
      OpenProjectListingChain(xs, size, status, whole, p + 1);
      assert OpenProjectPages(xs, size, p)[1..] == OpenProjectPages(xs, size, p + 1);
    }
  }

  /** When no page is refused, the listing yields exactly `xs`. */
  lemma {:induction false} OpenProjectListingYieldsAll<T>(xs: seq<T>, size: nat, status: int -> int, whole: T)
    requires 0 < size
    requires forall q :: 1 <= q ==> !IsErrorStatus(status(q)) && status(q) != 204
    ensures Fetch(OpenProjectListing(xs, size, status, whole), OpenProjectStep, None, |xs| + 1) == Some(Stream(xs, None))
  {
    var server := OpenProjectListing(xs, size, status, whole);
    var pages := OpenProjectPages(xs, size, 1);
    OpenProjectListingChain(xs, size, status, whole, 1);
    ChainFetch(server, OpenProjectStep, Some(1), pages, None);
    FetchMoreFuel(server, OpenProjectStep, Some(1), |pages|, |xs| + 1);
    assert server(None) == server(Some(1));
    FetchSameStep(server, OpenProjectStep, None, Some(1), |xs| + 1);
    assert xs[0..] == xs;
  }

  lemma {:induction false} OpenProjectListingAdvances<T>(xs: seq<T>, size: nat, status: int -> int, whole: T, q: int)
    requires 0 < size && 1 <= q
    ensures AdvancesBelow(OpenProjectListing(xs, size, status, whole), OpenProjectStep, q, |xs| + 1)
  {
    var lo := PageStart(|xs|, size, q);
    assert OpenProjectListing(xs, size, status, whole)(Some(q)).embedded == Some(Some(xs[lo..PageEnd(|xs|, size, lo)]));
    PageStartGrows(|xs|, size, q);
  }

  /** Whatever the statuses, listing ends within `|xs| + 1` requests:
      only a page holding items asks for the next one. */
  lemma {:induction false} OpenProjectListingTerminates<T>(xs: seq<T>, size: nat, status: int -> int, whole: T)
    requires 0 < size
    ensures Fetch(OpenProjectListing(xs, size, status, whole), OpenProjectStep, None, |xs| + 1).Some?
  {
    var server := OpenProjectListing(xs, size, status, whole);
    var bound := |xs| + 1;
    forall q | 1 <= q
      ensures AdvancesBelow(server, OpenProjectStep, q, bound)
    {
      OpenProjectListingAdvances(xs, size, status, whole, q);
    }
    FetchEndsBelow(server, OpenProjectStep, 1, bound);
    assert server(None) == server(Some(1));
    FetchSameStep(server, OpenProjectStep, None, Some(1), |xs| + 1);
  }

  /** Listing from page `p` yields the pages from `p` on unless a page is
      refused, whatever page that is. */
  lemma {:induction false} OpenProjectListingChainUnlessRefused<T>(xs: seq<T>, size: nat, status: int -> int, whole: T, p: int)
    requires 0 < size && 1 <= p
    requires forall q :: p <= q ==> status(q) != 204
    ensures ChainUnlessRefused(OpenProjectListing(xs, size, status, whole), OpenProjectStep, Some(p),
                               OpenProjectPages(xs, size, p))
    decreases |xs| - PageStart(|xs|, size, p)
  {
    var lo := PageStart(|xs|, size, p);
    var hi := PageEnd(|xs|, size, lo);
    var r := OpenProjectListing(xs, size, status, whole)(Some(p));
    assert r == OpenProjectResponse(status(p), Some(|xs|), Some(Some(xs[lo..hi])), Some(hi - lo), whole);
    assert status(p) != 204;
    if !IsErrorStatus(status(p)) && !(lo == hi || hi - lo == |xs|) {
      OpenProjectListingChainUnlessRefused(xs, size, status, whole, p + 1);
      assert OpenProjectPages(xs, size, p)[1..] == OpenProjectPages(xs, size, p + 1);
    }
  }

  /** Whatever page is refused, listing either yields every item, or stops
      on the refusal: a listing that ends without an exception is
      complete, and one that ends with an exception ends with the HTTP
      error of a refused page. */
  lemma {:induction false} OpenProjectListingOutcome<T>(xs: seq<T>, size: nat, status: int -> int, whole: T)
    requires 0 < size
    requires forall q :: 1 <= q ==> status(q) != 204
    ensures var s := Fetch(OpenProjectListing(xs, size, status, whole), OpenProjectStep, None, |xs| + 1);
            s.Some?
            && (s.value.failure.None? ==> s.value.items == xs)
            && (s.value.failure.Some? ==> s.value.failure.value.HttpError?
                                          && IsErrorStatus(s.value.failure.value.status))
  {
    var server := OpenProjectListing(xs, size, status, whole);
    var pages := OpenProjectPages(xs, size, 1);
    OpenProjectListingChainUnlessRefused(xs, size, status, whole, 1);
    ChainUnlessRefusedFetch(server, OpenProjectStep, Some(1), pages);
    FetchMoreFuel(server, OpenProjectStep, Some(1), |pages|, |xs| + 1);
    assert server(None) == server(Some(1));
    FetchSameStep(server, OpenProjectStep, None, Some(1), |xs| + 1);
    assert xs[0..] == xs;
  }
}
