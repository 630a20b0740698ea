/** Reading the tagged issues of a Space project (`get_from_space`, with
    `SpaceAPI.get_all` and `SpaceAPI.get_item`): every listed issue is
    looked up for its description and tags, its description is parsed,
    and the result becomes a `SpaceItem`.  The first exception raised
    aborts the whole read. */
module Space {
  import opened Base
  import opened Text
  import opened Dates
  import opened Pagination
  import opened Patterns
  import opened Description
  import opened Items

  /** An object of the issue listing.  `Unnumbered` is an object without a
      `number` key, such as the envelope of a listing page without data,
      which the Space generator yields whole. */
  datatype SpaceObject =
    | Issue(number: int, title: string, created: ValidDate, dueDate: Option<Timestamp>)
    | Unnumbered

  /** The answer to an issue lookup: `description` is `None` when it is
      null, `tags` is `None` when the key is absent. */
  datatype Detail = Detail(description: Option<string>, tags: Option<seq<string>>)

  /** The Space server: the issue listing, by `$skip` cursor, and the
      answer to looking up each issue number. */
  datatype SpaceServer = SpaceServer(
    issues: Option<int> -> SpaceResponse<SpaceObject>,
    detail: int -> SpaceResponse<Detail>)

  /** `SpaceAPI.get_item(number)`: the first object the lookup yields.  A
      Space response always yields something unless its status is an
      error, so the lookup fails exactly on an error status. */
  function GetItem(server: SpaceServer, number: int): (r: Result<Detail>)
    ensures r.Err? <==> IsErrorStatus(server.detail(number).status)
    ensures r.Err? ==> r.error == HttpError(server.detail(number).status)
  {
    First(SpaceStep(server.detail(number), None))
  }

  /** The loop body of `get_from_space` for one listed object, with the
      exceptions in the order the code can raise them: a missing number,
      a failed lookup, a bad date in the description, missing tags. */
  function MakeItem(server: SpaceServer, obj: SpaceObject): (r: Result<SpaceItem>)
    ensures obj.Unnumbered? ==> r == Err(KeyError(Field("number")))
    ensures obj.Issue? && GetItem(server, obj.number).Err? ==> r == Err(GetItem(server, obj.number).error)
    ensures obj.Issue? && GetItem(server, obj.number).Ok? ==>
              var extra := GetItem(server, obj.number).value;
              var parsed := Parse(extra.description.GetOr(""));
              && (parsed.Err? ==> r == Err(ValueError))
              && (parsed.Ok? && extra.tags.None? ==> r == Err(KeyError(Field("tags"))))
              && (parsed.Ok? && extra.tags.Some? ==> r.Ok?)
    ensures r.Ok? ==>
              && obj.Issue? && GetItem(server, obj.number).Ok?
              && var extra := GetItem(server, obj.number).value;
              && var parsed := Parse(extra.description.GetOr(""));
              && parsed.Ok? && extra.tags.Some?
              && r.value.id == obj.number && r.value.title == obj.title && r.value.dueDate == obj.dueDate
              && r.value.description == extra.description.GetOr("")
              && r.value.tags == extra.tags.value
              && r.value.earliestStart == parsed.value.earliest.GetOr(obj.created)
              && r.value.dependentOn == parsed.value.dependencies
              && r.value.duration == parsed.value.duration
  {
    match obj
    case Unnumbered => Err(KeyError(Field("number")))
    case Issue(number, title, created, due) =>
      match GetItem(server, number)
      case Err(e) => Err(e)
      case Ok(extra) =>
        var description := extra.description.GetOr("");
        match Parse(description)
        case Err(e) => Err(e)
        case Ok(p) =>
          if extra.tags.None? then Err(KeyError(Field("tags")))
          else Ok(SpaceItem(number, title, description, p.earliest.GetOr(created), due,
                            extra.tags.value, p.dependencies, p.duration))
  }

  /** The object-to-item step of a read from `server`. */
  function Maker(server: SpaceServer): SpaceObject -> Result<SpaceItem> {
    obj => MakeItem(server, obj)
  }

  /** The results of `make` on `objs` in order, or the exception of the
      first object that fails. */
  function Collect<A, B>(make: A -> Result<B>, objs: seq<A>): (r: Result<seq<B>>)
    ensures r.Ok? ==> |r.value| == |objs|
  {
    if objs == [] then Ok([])
    else
      match Collect(make, objs[..|objs| - 1])
      case Err(e) => Err(e)
      case Ok(items) =>
        match make(objs[|objs| - 1])
        case Err(e) => Err(e)
        case Ok(item) => Ok(items + [item])
  }

  /** `list(get_from_space(api))` over a drained listing: objects are
      processed as they are yielded, so an exception from one of them
      comes before the exception that ended the listing. */
  function ItemsFrom(server: SpaceServer, listing: Stream<SpaceObject>): (r: Result<seq<SpaceItem>>)
    ensures r.Ok? ==> listing.failure.None? && |r.value| == |listing.items|
    ensures listing.failure.Some? && Collect(Maker(server), listing.items).Ok? ==> r == Err(listing.failure.value)
  {
    match Collect(Maker(server), listing.items)
    case Err(e) => Err(e)
    case Ok(items) => if listing.failure.Some? then Err(listing.failure.value) else Ok(items)
  }

  /** The outcome of reading Space when the listing needs at most `fuel`
      requests; `None` when it needs more. */
  function FetchItems(server: SpaceServer, fuel: nat): Option<Result<seq<SpaceItem>>> {
    match Fetch(server.issues, SpaceStep, None, fuel)
    case None => None
    case Some(listing) => Some(ItemsFrom(server, listing))
  }

  /** A successful read makes exactly one item per listed object, in
      order, and each is what that object makes. */
  lemma {:induction false} CollectOk<A, B>(make: A -> Result<B>, objs: seq<A>)
    requires Collect(make, objs).Ok?
    ensures var items := Collect(make, objs).value;
            |items| == |objs|
            && forall k | 0 <= k < |objs| :: make(objs[k]) == Ok(items[k])
  {
    if objs != [] {
      var init := objs[..|objs| - 1];
      CollectOk(make, init);
      var items := Collect(make, objs).value;
      assert items == Collect(make, init).value + [make(objs[|objs| - 1]).value];
      forall k | 0 <= k < |objs|
        ensures make(objs[k]) == Ok(items[k])
      {
        if k < |init| {
          assert objs[k] == init[k];
        }
      }
    }
  }

  /** Every object making an item is enough for the read to succeed. */
  lemma {:induction false} CollectAllMade<A, B>(make: A -> Result<B>, objs: seq<A>)
    requires forall k | 0 <= k < |objs| :: make(objs[k]).Ok?
    ensures Collect(make, objs).Ok?
  {
    if objs != [] {
      var init := objs[..|objs| - 1];
      forall k | 0 <= k < |init|
        ensures make(init[k]).Ok?
      {
        assert init[k] == objs[k];
      }
      CollectAllMade(make, init);
    }
  }

  /** A failed read raises what the first failing object raised. */
  lemma {:induction false} CollectErr<A, B>(make: A -> Result<B>, objs: seq<A>)
    requires Collect(make, objs).Err?
    ensures exists k | 0 <= k < |objs| ::
              make(objs[k]) == Err(Collect(make, objs).error)
              && forall j | 0 <= j < k :: make(objs[j]).Ok?
  {
    var init := objs[..|objs| - 1];
    var last := |objs| - 1;
    if Collect(make, init).Err? {
      CollectErr(make, init);
      var k :| 0 <= k < |init| && make(init[k]) == Err(Collect(make, init).error)
               && forall j | 0 <= j < k :: make(init[j]).Ok?;
      assert objs[k] == init[k];
      forall j | 0 <= j < k
        ensures make(objs[j]).Ok?
      {
        assert objs[j] == init[j];
      }
    } else {
      CollectOk(make, init);
      forall j | 0 <= j < last
        ensures make(objs[j]).Ok?
      {
        assert objs[j] == init[j];
      }
      assert make(objs[last]) == Err(Collect(make, objs).error);
    }
  }

  /** One more successfully made object extends the collected prefix. */
  lemma CollectSnoc<A, B>(make: A -> Result<B>, objs: seq<A>, i: nat, items: seq<B>, item: B)
    requires i < |objs| && Collect(make, objs[..i]) == Ok(items) && make(objs[i]) == Ok(item)
    ensures Collect(make, objs[..i + 1]) == Ok(items + [item])
  {
    assert objs[..i + 1][..i] == objs[..i];
  }

  /** Once a prefix of the objects fails, the rest are never processed. */
  lemma {:induction false} CollectErrPersists<A, B>(make: A -> Result<B>, objs: seq<A>, n: nat)
    requires n <= |objs| && Collect(make, objs[..n]).Err?
    ensures Collect(make, objs) == Collect(make, objs[..n])
    decreases |objs| - n
  {
    if n < |objs| {
      assert objs[..n + 1][..n] == objs[..n];
      CollectErrPersists(make, objs, n + 1);
    } else {
      assert objs[..n] == objs;
    }
  }

  /** An item starts on the date of the last scanned description line that
      gives one, and on the issue's creation date when no line gives one. */
  lemma {:induction false} MakeItemStart(server: SpaceServer, obj: SpaceObject)
    requires MakeItem(server, obj).Ok?
    ensures obj.Issue?
    ensures var item := MakeItem(server, obj).value;
            var fs := FieldsAll(FieldsOf, Scanned(CleanAll(SplitLines(Strip(item.description)))));
            && ((forall k | 0 <= k < |fs| :: fs[k].earliest.None?) ==> item.earliestStart == obj.created)
            && ((exists k | 0 <= k < |fs| :: fs[k].earliest.Some?) ==>
                  exists k | 0 <= k < |fs| :: fs[k].earliest == Some(Ok(item.earliestStart))
                                              && forall k' | k < k' < |fs| :: fs[k'].earliest.None?)
  {
    var item := MakeItem(server, obj).value;
    var fs := FieldsAll(FieldsOf, Scanned(CleanAll(SplitLines(Strip(item.description)))));
    assert Parse(item.description) == Combine(fs);
    assert !HasBadDate(fs);
    var last := LastEarliest(fs);
    assert Parse(item.description).value.earliest == last;
    assert item.earliestStart == last.GetOr(obj.created);
    LastEarliestWins(fs);
    if last.Some? {
      var k :| 0 <= k < |fs| && fs[k].earliest == Some(Ok(last.value))
               && forall k' | k < k' < |fs| :: fs[k'].earliest.None?;
      assert fs[k].earliest.Some? && item.earliestStart == last.value;
    }
  }

  /** A description that is null or empty gives the defaults: no
      dependencies, one day, and the creation date as earliest start. */
  lemma {:induction false} EmptyDescriptionDefaults()
    ensures Parse("") == Ok(Parsed([], 1, None))
  {
    assert Strip("") == "";
    ParseDefaults(FieldsOf, CleanAll(SplitLines("")));
  }

  /** An issue whose description says nothing is scheduled for one day
      from its creation date, with no dependencies. */
  lemma {:induction false} MakeItemWithoutDescription(server: SpaceServer, obj: SpaceObject)
    requires obj.Issue?
    requires GetItem(server, obj.number).Ok?
    requires var extra := GetItem(server, obj.number).value;
             extra.description.GetOr("") == "" && extra.tags.Some?
    ensures var extra := GetItem(server, obj.number).value;
            MakeItem(server, obj)
              == Ok(SpaceItem(obj.number, obj.title, "", obj.created, obj.dueDate, extra.tags.value, [], 1))
  {
    EmptyDescriptionDefaults();
  }

  /** With a well-behaved listing, the read covers every listed issue. */
  lemma {:induction false} ListingIsRead(server: SpaceServer, objs: seq<SpaceObject>, size: nat, envelope: SpaceObject)
    requires 0 < size && objs != []
    requires server.issues == SpaceListing(objs, size, envelope)
    ensures FetchItems(server, |objs|) == Some(Collect(Maker(server), objs))
  {
    SpaceListingYieldsAll(objs, size, envelope);
  }

  /** An empty listing is not a no-op: its page has no data, so the page
      itself is yielded as an object, and it has no `number`. */
  lemma {:induction false} EmptyListingRaises(server: SpaceServer, size: nat)
    requires 0 < size
    requires server.issues == SpaceListing([], size, Unnumbered)
    ensures FetchItems(server, 1) == Some(Err(KeyError(Field("number"))))
  {
    SpaceListingYieldsAll([], size, Unnumbered);
    assert Collect(Maker(server), [Unnumbered]) == Err(KeyError(Field("number"))) by {
      assert [Unnumbered][..0] == [];
    }
  }

  /** One pass of the loop of `get_from_space`: looks the listed object
      up, parses its description and builds the item. */
  method ReadItem(server: SpaceServer, obj: SpaceObject) returns (r: Result<SpaceItem>)
    ensures r == MakeItem(server, obj)
  {
    if obj.Unnumbered? {
      return Err(KeyError(Field("number")));
    }
    var extra := GetItem(server, obj.number);
    if extra.Err? {
      return Err(extra.error);
    }
    var description := extra.value.description.GetOr("");
    var parsed := ParseDescription(description);
    if parsed.Err? {
      return Err(parsed.error);
    }
    if extra.value.tags.None? {
      return Err(KeyError(Field("tags")));
    }
    var earliest := obj.created;
    if parsed.value.earliest.Some? {
      earliest := parsed.value.earliest.value;
    }
    return Ok(SpaceItem(obj.number, obj.title, description, earliest, obj.dueDate,
                        extra.value.tags.value, parsed.value.dependencies, parsed.value.duration));
  }

  /** `list(get_from_space(api))`: drains the listing, then turns each
      listed object into an item, looking it up and parsing its
      description. */
  method GetFromSpace(server: SpaceServer, ghost fuel: nat) returns (r: Result<seq<SpaceItem>>)
    requires Fetch(server.issues, SpaceStep, None, fuel).Some?
    ensures FetchItems(server, fuel) == Some(r)
  {
    var listing, _ := Drain(server.issues, SpaceStep, fuel);
    var objs := listing.items;
    var items: seq<SpaceItem> := [];
    var i := 0;
    while i < |objs|
      invariant 0 <= i <= |objs|
      invariant Collect(Maker(server), objs[..i]) == Ok(items)
    {
      var obj := objs[i];
      var item := ReadItem(server, obj);
      assert Maker(server)(obj) == item;
      if item.Err? {
        assert objs[..i + 1][..i] == objs[..i];
        CollectErrPersists(Maker(server), objs, i + 1);
        return Err(item.error);
      }
      CollectSnoc(Maker(server), objs, i, items, item.value);
      items := items + [item.value];
      i := i + 1;
    }
    assert objs[..i] == objs;
    if listing.failure.Some? {
      return Err(listing.failure.value);
    }
    return Ok(items);
  }
}
