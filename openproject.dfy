/** The OpenProject side (`OpenProjectAPI`): listing, deleting and creating
    work packages, and relating them.

    The remote tracker is modelled as the object itself: it holds the work
    packages, their listing order and the relations between them, and
    allocates ids.  What the server does with a request it serves is given
    by the functions `CreateIn`, `DeleteIn` and `RelateIn` on a `Content`
    value; the transport decides, request by request, whether a request is
    refused, which raises in `raise_for_status` and leaves the tracker as
    it was. */
module OpenProject {
  import opened Base
  import opened Dates
  import opened Pagination
  import opened Items

  /** A `follows` relation: work package `from` follows `to`, so `to`
      precedes `from`. */
  datatype Relation = Follows(from: int, to: int)

  /** What the tracker holds: work packages by id, the ids in listing
      order, the relations, and the id the next created package gets. */
  datatype Content = Content(
    packages: map<int, OpenProjectItem>,
    order: seq<int>,
    relations: seq<Relation>,
    nextId: int)

  ghost predicate Increasing(s: seq<int>) {
    forall i, j | 0 <= i < j < |s| :: s[i] < s[j]
  }

  /** The tracker's invariant: the listing holds each stored package once,
      by increasing id; every package knows its own id, which is below
      the next id to allocate; relations only link stored packages. */
  ghost predicate Consistent(c: Content) {
    && (forall id | id in c.packages :: id in c.order)
    && (forall k | 0 <= k < |c.order| :: c.order[k] in c.packages)
    && Increasing(c.order)
    && (forall id | id in c.packages :: c.packages[id].id == id && id < c.nextId)
    && (forall rel | rel in c.relations :: rel.from in c.packages && rel.to in c.packages)
  }

  /** The work packages in listing order. */
  function Listed(c: Content): seq<OpenProjectItem>
    requires forall k | 0 <= k < |c.order| :: c.order[k] in c.packages
  {
    seq(|c.order|, k requires 0 <= k < |c.order| => c.packages[c.order[k]])
  }

  /** `s` without the occurrences of `x`. */
  function Without(s: seq<int>, x: int): (t: seq<int>)
    ensures forall y :: y in t <==> y in s && y != x
  {
    if s == [] then [] else (if s[0] == x then [] else [s[0]]) + Without(s[1..], x)
  }

  /** `rels` without the relations that touch `id`. */
  function Detach(rels: seq<Relation>, id: int): (t: seq<Relation>)
    ensures forall rel :: rel in t <==> rel in rels && rel.from != id && rel.to != id
  {
    if rels == [] then []
    else (if rels[0].from == id || rels[0].to == id then [] else [rels[0]]) + Detach(rels[1..], id)
  }

  /** Serving a creation: the package gets the next id and is listed last. */
  function CreateIn(c: Content, subject: string, start: ValidDate, due: ValidDate): Content {
    Content(c.packages[c.nextId := OpenProjectItem(c.nextId, subject, Some(start), Some(due), [])],
            c.order + [c.nextId], c.relations, c.nextId + 1)
  }

  /** Serving a deletion: 404 for an unknown id; otherwise the package
      goes, and with it every relation that touches it. */
  function DeleteIn(c: Content, id: int): (r: Result<Content>)
    ensures r.Ok? <==> id in c.packages
    ensures r.Err? ==> r.error == HttpError(404)
  {
    if id !in c.packages then Err(HttpError(404))
    else Ok(Content(c.packages - {id}, Without(c.order, id), Detach(c.relations, id), c.nextId))
  }

  /** A served deletion removes the package from the store and the
      listing, keeps every other package as it was, and keeps only the
      relations that do not touch it. */
  lemma {:induction false} DeleteInRemoves(c: Content, id: int)
    requires id in c.packages
    ensures var d := DeleteIn(c, id).value;
      && id !in d.packages && id !in d.order && d.nextId == c.nextId
      && (forall x | x in c.packages && x != id :: x in d.packages && d.packages[x] == c.packages[x])
      && (forall rel | rel in d.relations :: rel in c.relations && rel.from != id && rel.to != id)
  {
  }

  /** Serving a relation posted under `from`: 404 for an unknown `from`,
      422 for an unknown `to`; otherwise the relation is added last. */
  function RelateIn(c: Content, from: int, to: int): (r: Result<Content>)
    ensures r.Ok? <==> from in c.packages && to in c.packages
    ensures r.Err? ==> r.error == HttpError(if from !in c.packages then 404 else 422)
    ensures r.Ok? ==> r.value.packages == c.packages && r.value.order == c.order && r.value.nextId == c.nextId
    ensures r.Ok? ==> |r.value.relations| == |c.relations| + 1 && r.value.relations[|c.relations|] == Follows(from, to)
  {
    if from !in c.packages then Err(HttpError(404))
    else if to !in c.packages then Err(HttpError(422))
    else Ok(c.(relations := c.relations + [Follows(from, to)]))
  }

  /** Creating keeps the tracker consistent: the new id is above every
      stored one. */
  lemma {:induction false} CreateKeepsConsistent(c: Content, subject: string, start: ValidDate, due: ValidDate)
    requires Consistent(c)
    ensures Consistent(CreateIn(c, subject, start, due))
  {
    var d := CreateIn(c, subject, start, due);
    forall i, j | 0 <= i < j < |d.order|
      ensures d.order[i] < d.order[j]
    {
      assert d.order[i] == c.order[i] && c.order[i] in c.order;
    }
  }

  /** Deleting an element of an increasing sequence keeps it increasing. */
  lemma {:induction false} WithoutIncreasing(s: seq<int>, x: int)
    requires Increasing(s)
    ensures Increasing(Without(s, x))
  {
    if s != [] {
      var rest := Without(s[1..], x);
      WithoutIncreasing(s[1..], x);
      var t := Without(s, x);
      if s[0] != x {
        assert t == [s[0]] + rest;
        forall i, j | 0 <= i < j < |t|
          ensures t[i] < t[j]
        {
          if i == 0 {
            assert t[j] == rest[j - 1] && rest[j - 1] in rest;
            var k :| 0 <= k < |s[1..]| && s[1..][k] == t[j];
            assert s[0] < s[k + 1];
          } else {
            assert t[i] == rest[i - 1] && t[j] == rest[j - 1];
          }
        }
      } else {
        assert t == rest;
      }
    }
  }

  /** Deleting a stored package keeps the tracker consistent. */
  lemma {:induction false} DeleteKeepsConsistent(c: Content, id: int)
    requires Consistent(c) && DeleteIn(c, id).Ok?
    ensures Consistent(DeleteIn(c, id).value)
  {
    WithoutIncreasing(c.order, id);
    var t := Without(c.order, id);
    forall k | 0 <= k < |t|
      ensures t[k] in c.packages && t[k] != id
    {
      assert t[k] in t;
      var j :| 0 <= j < |c.order| && c.order[j] == t[k];
    }
  }

  /** Relating two stored packages keeps the tracker consistent. */
  lemma {:induction false} RelateKeepsConsistent(c: Content, from: int, to: int)
    requires Consistent(c) && RelateIn(c, from, to).Ok?
    ensures Consistent(RelateIn(c, from, to).value)
  {
  }

  /** Removing what is absent changes nothing. */
  lemma {:induction false} WithoutAbsent(s: seq<int>, x: int)
    requires x !in s
    ensures Without(s, x) == s
  {
    if s != [] {
      WithoutAbsent(s[1..], x);
      assert [s[0]] + s[1..] == s;
    }
  }

  /** Deleting the first listed package drops the head of the listing. */
  lemma {:induction false} WithoutFirst(s: seq<int>)
    requires s != [] && Increasing(s)
    ensures Without(s, s[0]) == s[1..]
  {
    assert s[0] !in s[1..];
    WithoutAbsent(s[1..], s[0]);
  }

  lemma {:induction false} HeadIsElement<T>(s: seq<T>)
    ensures s != [] ==> s[0] in s
  {
  }

  /** A consistent tracker with an empty listing holds nothing at all. */
  lemma {:induction false} NothingListedNothingStored(c: Content)
    requires Consistent(c) && c.order == []
    ensures c.packages == map[] && c.relations == []
  {
    assert forall id :: id !in c.packages.Keys;
    HeadIsElement(c.relations);
  }

  /** The client together with the tracker it talks to. */
  class OpenProject {
    var packages: map<int, OpenProjectItem>
    var order: seq<int>
    var relations: seq<Relation>
    var nextId: int
    /** How many requests the client has sent so far. */
    var sent: nat
    /** How many work packages a listing page holds. */
    const pageSize: nat
    /** The status the transport reports for the request at each position:
        an error status means the request is refused and has no effect,
        any other status means it reaches the tracker and is served. */
    const answer: nat -> int

    function Contents(): Content
      reads this
    {
      Content(packages, order, relations, nextId)
    }

    ghost predicate Valid()
      reads this
    {
      0 < pageSize && Consistent(Contents())
    }

    /** Whether the request at position `n` is refused. */
    predicate Refused(n: nat) {
      IsErrorStatus(answer(n))
    }

    /** No request from position `n` on is refused. */
    ghost predicate ServesFrom(n: nat) {
      forall m :: n <= m ==> !Refused(m)
    }

    /** The status of the request at position `n`, which the tracker
        answers with `served` unless the request is refused. */
    function StatusOf(n: nat, served: int): int {
      if Refused(n) then answer(n) else served
    }

    /** A client of an empty tracker. */
    constructor(pageSize: nat, answer: nat -> int)
      requires 0 < pageSize
      ensures Valid() && Contents() == Content(map[], [], [], 1) && sent == 0
      ensures this.pageSize == pageSize && this.answer == answer
    {
      this.pageSize := pageSize;
      this.answer := answer;
      packages, order, relations, nextId, sent := map[], [], [], 1, 0;
    }

    /** `list(get_all())`: the paginated listing of every work package.
        Each page is one request; a refused page raises and ends it. */
    method ListWorkPackages() returns (r: Result<seq<OpenProjectItem>>)
      requires Valid()
      modifies this
      ensures Valid() && Contents() == old(Contents())
      ensures old(sent) < sent <= old(sent) + |order| + 1
      ensures r.Ok? ==> r.value == Listed(Contents())
      ensures r.Err? ==> r.error.HttpError? && IsErrorStatus(r.error.status)
      ensures ServesFrom(old(sent)) ==> r.Ok?
    {
      var xs := Listed(Contents());
      var first := sent;
      // the status of the request for page `q`, the first page being
      // requested first
      var status := (q: int) => if 1 <= q then StatusOf(first + q - 1, 200) else 200;
      // every listing page is a collection, so the generator never yields
      // a response whole
      var whole := OpenProjectItem(0, "", None, None, []);
      var server := OpenProjectListing(xs, pageSize, status, whole);
      forall q | 1 <= q
        ensures status(q) == StatusOf(first + q - 1, 200) && status(q) != 204
      {
      }
      OpenProjectListingTerminates(xs, pageSize, status, whole);
      OpenProjectListingOutcome(xs, pageSize, status, whole);
      var out, requests := Drain(server, OpenProjectStep, |xs| + 1);
      if ServesFrom(first) {
        forall q | 1 <= q
          ensures !IsErrorStatus(status(q)) && status(q) != 204
        {
          assert status(q) == StatusOf(first + q - 1, 200);
          assert !Refused(first + q - 1);
        }
        OpenProjectListingYieldsAll(xs, pageSize, status, whole);
      }
      sent := sent + requests;
      if out.failure.Some? {
        return Err(out.failure.value);
      }
      return Ok(out.items);
    }

    /** `list(request("delete", …/work_packages/{id}))`: one request, which
        the tracker answers with 204 (No Content) when it deletes. */
    method Delete(id: int) returns (r: Result<()>)
      requires Valid()
      modifies this
      ensures Valid() && sent == old(sent) + 1 && nextId == old(nextId)
      ensures !Refused(old(sent)) ==> (r.Ok? <==> DeleteIn(old(Contents()), id).Ok?)
      ensures r.Ok? ==> DeleteIn(old(Contents()), id).Ok? && Contents() == DeleteIn(old(Contents()), id).value
      ensures r.Err? ==> Contents() == old(Contents())
                         && r.error == if Refused(old(sent)) then HttpError(answer(old(sent)))
                                       else DeleteIn(old(Contents()), id).error
    {
      var status := StatusOf(sent, if id in packages then 204 else 404);
      var s := OpenProjectStep(OpenProjectResponse(status, None, None, None, ()), None);
      sent := sent + 1;
      if s.next.Fail? {
        return Err(s.next.error);
      }
      DeleteKeepsConsistent(Contents(), id);
      packages, order, relations := packages - {id}, Without(order, id), Detach(relations, id);
      return Ok(());
    }

    /** `clear_work_packages`: lists every work package, then deletes them
        one by one in listing order. */
    method ClearWorkPackages() returns (r: Result<()>)
      requires Valid()
      modifies this
      ensures Valid() && nextId == old(nextId) && old(sent) < sent
      ensures r.Ok? ==> Contents() == Content(map[], [], [], old(nextId))
      ensures r.Err? ==> r.error.HttpError?
      ensures ServesFrom(old(sent)) ==> r.Ok?
    {
      var listed := ListWorkPackages();
      if listed.Err? {
        return Err(listed.error);
      }
      var wps := listed.value;
      ghost var ids := order;
      var i := 0;
      while i < |wps|
        invariant 0 <= i <= |wps| == |ids|
        invariant Valid() && nextId == old(nextId) && old(sent) < sent
        invariant order == ids[i..]
        invariant forall k | i <= k < |wps| :: wps[k].id == ids[k]
        invariant ServesFrom(old(sent)) ==> ServesFrom(sent)
      {
        assert order[0] == ids[i] && ids[i] in order;
        WithoutFirst(order);
        assert ids[i..][1..] == ids[i + 1..];
        var deleted := Delete(wps[i].id);
        if deleted.Err? {
          return Err(deleted.error);
        }
        i := i + 1;
      }
      NothingListedNothingStored(Contents());
      return Ok(());
    }

    /** `create_work_package`: one request, answered with the created
        package, which the call returns. */
    method CreateWorkPackage(subject: string, start: ValidDate, due: ValidDate) returns (r: Result<OpenProjectItem>)
      requires Valid()
      modifies this
      ensures Valid() && sent == old(sent) + 1
      ensures r.Err? <==> Refused(old(sent))
      ensures r.Err? ==> r.error == HttpError(answer(old(sent))) && Contents() == old(Contents())
      ensures r.Ok? ==> r.value == OpenProjectItem(old(nextId), subject, Some(start), Some(due), [])
                        && Contents() == CreateIn(old(Contents()), subject, start, due)
    {
      var created := OpenProjectItem(nextId, subject, Some(start), Some(due), []);
      r := First(OpenProjectStep(OpenProjectResponse(StatusOf(sent, 201), None, None, None, created), None));
      sent := sent + 1;
      if r.Ok? {
        CreateKeepsConsistent(Contents(), subject, start, due);
        packages, order, nextId := packages[nextId := created], order + [nextId], nextId + 1;
      }
    }

    /** `create_relation`: one request posted under `from`, answered with
        the created relation, which the call returns. */
    method CreateRelation(from: int, to: int) returns (r: Result<Relation>)
      requires Valid()
      modifies this
      ensures Valid() && sent == old(sent) + 1 && nextId == old(nextId)
      ensures !Refused(old(sent)) ==> (r.Ok? <==> RelateIn(old(Contents()), from, to).Ok?)
      ensures r.Ok? ==> r.value == Follows(from, to) && RelateIn(old(Contents()), from, to).Ok?
                        && Contents() == RelateIn(old(Contents()), from, to).value
      ensures r.Err? ==> Contents() == old(Contents())
                         && r.error == if Refused(old(sent)) then HttpError(answer(old(sent)))
                                       else RelateIn(old(Contents()), from, to).error
    {
      var served := if from !in packages then 404 else if to !in packages then 422 else 201;
      r := First(OpenProjectStep(OpenProjectResponse(StatusOf(sent, served), None, None, None, Follows(from, to)), None));
      sent := sent + 1;
      if r.Ok? {
        RelateKeepsConsistent(Contents(), from, to);
        relations := relations + [Follows(from, to)];
      }
    }
  }
}
