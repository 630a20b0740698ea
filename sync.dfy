/** One synchronisation run (`space_to_openproject`), with its change gate
    (`updated` and `save`).

    A run reads every item from Space; when they equal the snapshot of the
    last successful run it stops.  Otherwise it empties the OpenProject
    project, creates one work package per item, in order, remembering
    which work package each Space issue number became, then relates each
    item's work package to those of its dependencies, and finally stores
    the items as the new snapshot.  The first exception ends the run. */
module Sync {
  import opened Base
  import opened Dates
  import opened Pagination
  import opened Items
  import opened Space
  import opened OpenProject

  /** How a run that raised nothing ended. */
  datatype Outcome = UpToDate | Synced

  /** The snapshot file of the last successful run. */
  class SnapshotStore {
    /** The items the file holds; `None` when it is missing or does not
        unpickle.  Touching a missing file creates it empty, which does not
        unpickle either, so `updated` leaves this as it was. */
    var blob: Option<seq<SpaceItem>>

    constructor(blob: Option<seq<SpaceItem>>)
      ensures this.blob == blob
    {
      this.blob := blob;
    }

    /** The items of the last successful run, as `updated` reads them: a
        missing or unreadable snapshot counts as no items. */
    function Previous(): seq<SpaceItem>
      reads this
    {
      blob.GetOr([])
    }

    /** `updated(items)`: whether the items differ from the snapshot. */
    method Updated(items: seq<SpaceItem>) returns (changed: bool)
      ensures changed <==> items != Previous()
      ensures blob == None ==> (changed <==> items != [])
    {
      changed := items != blob.GetOr([]);
    }

    /** `save(items)`: the items become the snapshot. */
    method Save(items: seq<SpaceItem>)
      modifies this
      ensures blob == Some(items) && Previous() == items
    {
      blob := Some(items);
    }
  }

  /** How a due date is computed from a start date and a duration.  A run
      uses `AddDays`; the plan of a run is stated for any such rule, so
      that reasoning about the plan never unfolds the calendar. */
  type DueRule = (ValidDate, nat) -> Result<ValidDate>

  /** The rule fails only by overflowing, as `AddDays` does. */
  ghost predicate OnlyOverflows(due: DueRule) {
    forall d, n :: due(d, n).Err? ==> due(d, n).error == OverflowError
  }

  /** The create loop run on tracker `c`: the tracker and the translation
      map after creating one work package per item, or the exception of
      the first item whose due date cannot be computed. */
  function CreateAll(due: DueRule, c: Content, items: seq<SpaceItem>): Result<(Content, map<int, int>)>
  {
    if items == [] then Ok((c, map[]))
    else
      var item := items[|items| - 1];
      match CreateAll(due, c, items[..|items| - 1])
      case Err(e) => Err(e)
      case Ok((d, tm)) =>
        match due(item.earliestStart, item.duration)
        case Err(e) => Err(e)
        case Ok(dueDate) =>
          Ok((CreateIn(d, Subject(item.id, item.title), item.earliestStart, dueDate), tm[item.id := d.nextId]))
  }

  /** The inner relations loop: relates work package `orig` to the work
      package of each dependency in turn. */
  function RelateDeps(c: Content, orig: int, deps: seq<nat>, tm: map<int, int>): Result<Content>
  {
    if deps == [] then Ok(c)
    else
      var dep := deps[|deps| - 1];
      match RelateDeps(c, orig, deps[..|deps| - 1], tm)
      case Err(e) => Err(e)
      case Ok(d) => if dep !in tm then Err(KeyError(Number(dep))) else RelateIn(d, orig, tm[dep])
  }

  /** The outer relations loop, item by item. */
  function RelateAll(c: Content, items: seq<SpaceItem>, tm: map<int, int>): Result<Content>
  {
    if items == [] then Ok(c)
    else
      var item := items[|items| - 1];
      match RelateAll(c, items[..|items| - 1], tm)
      case Err(e) => Err(e)
      case Ok(d) =>
        if item.id !in tm then Err(KeyError(Number(item.id)))
        else RelateDeps(d, tm[item.id], item.dependentOn, tm)
  }

  /** The tracker as the create loop finds it: emptied, with `first` as its
      next id. */
  function Emptied(first: int): Content {
    Content(map[], [], [], first)
  }

  /** Applying changed items to tracker `c` when every request is served. */
  function Apply(due: DueRule, c: Content, items: seq<SpaceItem>): Result<Content> {
    match CreateAll(due, Emptied(c.nextId), items)
    case Err(e) => Err(e)
    case Ok((d, tm)) => RelateAll(d, items, tm)
  }

  /** The outcome of a run against a tracker that serves every request,
      given what reading Space gave and the snapshot. */
  function Expected(due: DueRule, c: Content, previous: seq<SpaceItem>, read: Result<seq<SpaceItem>>): Result<Outcome> {
    match read
    case Err(e) => Err(e)
    case Ok(items) =>
      if items == previous then Ok(UpToDate)
      else
        match Apply(due, c, items)
        case Err(e) => Err(e)
        case Ok(_) => Ok(Synced)
  }

  // ------------------------------------------------ reference definitions

  /** The Space issue numbers among `items`. */
  ghost function Ids(items: seq<SpaceItem>): set<int> {
    set k | 0 <= k < |items| :: items[k].id
  }

  /** Every item's due date can be computed. */
  ghost predicate NoOverflow(due: DueRule, items: seq<SpaceItem>) {
    forall k | 0 <= k < |items| :: due(items[k].earliestStart, items[k].duration).Ok?
  }

  /** Every dependency names an item that is being synchronised. */
  ghost predicate DepsKnown(items: seq<SpaceItem>) {
    forall k, j | 0 <= k < |items| && 0 <= j < |items[k].dependentOn| :: items[k].dependentOn[j] in Ids(items)
  }

  /** The translation map the create loop builds when work packages get
      consecutive ids from `first`: each issue number maps to the work
      package of the last item with that number. */
  function Translation(items: seq<SpaceItem>, first: int): map<int, int> {
    if items == [] then map[]
    else Translation(items[..|items| - 1], first)[items[|items| - 1].id := first + |items| - 1]
  }

  /** The relations of one item: its work package follows that of each of
      its dependencies, in order. */
  function DepLinks(orig: int, deps: seq<nat>, tm: map<int, int>): seq<Relation>
    requires forall j | 0 <= j < |deps| :: deps[j] in tm
  {
    seq(|deps|, j requires 0 <= j < |deps| && deps[j] in tm => Follows(orig, tm[deps[j]]))
  }

  /** All relations, one per (item, dependency) pair, item by item. */
  function Links(items: seq<SpaceItem>, tm: map<int, int>): seq<Relation>
    requires forall k | 0 <= k < |items| :: items[k].id in tm
    requires forall k, j | 0 <= k < |items| && 0 <= j < |items[k].dependentOn| :: items[k].dependentOn[j] in tm
  {
    if items == [] then []
    else
      var last := items[|items| - 1];
      Links(items[..|items| - 1], tm) + DepLinks(tm[last.id], last.dependentOn, tm)
  }

  // ------------------------------------------------------------- lemmas

  /** Once creating a prefix of the items fails, the loop fails with it. */
  lemma {:induction false} CreateAllErrPersists(due: DueRule, c: Content, items: seq<SpaceItem>, n: nat)
    requires n <= |items| && CreateAll(due, c, items[..n]).Err?
    ensures CreateAll(due, c, items) == CreateAll(due, c, items[..n])
    decreases |items| - n
  {
    if n < |items| {
      assert items[..n + 1][..n] == items[..n];
      CreateAllErrPersists(due, c, items, n + 1);
    } else {
      assert items[..n] == items;
    }
  }

  lemma {:induction false} RelateDepsErrPersists(c: Content, orig: int, deps: seq<nat>, tm: map<int, int>, n: nat)
    requires n <= |deps| && RelateDeps(c, orig, deps[..n], tm).Err?
    ensures RelateDeps(c, orig, deps, tm) == RelateDeps(c, orig, deps[..n], tm)
    decreases |deps| - n
  {
    if n < |deps| {
      assert deps[..n + 1][..n] == deps[..n];
      RelateDepsErrPersists(c, orig, deps, tm, n + 1);
    } else {
      assert deps[..n] == deps;
    }
  }

  lemma {:induction false} RelateAllErrPersists(c: Content, items: seq<SpaceItem>, tm: map<int, int>, n: nat)
    requires n <= |items| && RelateAll(c, items[..n], tm).Err?
    ensures RelateAll(c, items, tm) == RelateAll(c, items[..n], tm)
    decreases |items| - n
  {
    if n < |items| {
      assert items[..n + 1][..n] == items[..n];
      RelateAllErrPersists(c, items, tm, n + 1);
    } else {
      assert items[..n] == items;
    }
  }

  /** An item list fits when its prefix fits and its last item does. */
  lemma {:induction false} NoOverflowLast(due: DueRule, items: seq<SpaceItem>)
    requires items != []
    ensures var last := items[|items| - 1];
            NoOverflow(due, items) <==> NoOverflow(due, items[..|items| - 1]) && due(last.earliestStart, last.duration).Ok?
  {
    var init := items[..|items| - 1];
    var last := items[|items| - 1];
    if NoOverflow(due, items) {
      forall k | 0 <= k < |init|
        ensures due(init[k].earliestStart, init[k].duration).Ok?
      {
        assert init[k] == items[k];
      }
    } else if NoOverflow(due, init) && due(last.earliestStart, last.duration).Ok? {
      forall k | 0 <= k < |items|
        ensures due(items[k].earliestStart, items[k].duration).Ok?
      {
        if k < |init| {
          assert items[k] == init[k];
        }
      }
    }
  }

  /** The create loop fails exactly when some item's due date is out of
      range, and then with `OverflowError`. */
  lemma {:induction false} CreateAllOverflow(due: DueRule, c: Content, items: seq<SpaceItem>)
    requires OnlyOverflows(due)
    ensures CreateAll(due, c, items).Ok? <==> NoOverflow(due, items)
    ensures CreateAll(due, c, items).Err? ==> CreateAll(due, c, items).error == OverflowError
  {
    if items != [] {
      CreateAllOverflow(due, c, items[..|items| - 1]);
      NoOverflowLast(due, items);
    }
  }

  /** Item `k` is the last item with its issue number. */
  ghost predicate LastWithId(items: seq<SpaceItem>, k: int)
    requires 0 <= k < |items|
  {
    forall j | k < j < |items| :: items[j].id != items[k].id
  }

  /** The translation map maps exactly the issue numbers of the items. */
  lemma {:induction false} TranslationKeys(items: seq<SpaceItem>, first: int)
    ensures forall k | 0 <= k < |items| :: items[k].id in Translation(items, first)
    ensures forall x :: x in Translation(items, first) <==> x in Ids(items)
  {
    if items != [] {
      var init := items[..|items| - 1];
      TranslationKeys(init, first);
      assert forall k | 0 <= k < |init| :: init[k] == items[k];
      assert Ids(items) == Ids(init) + {items[|items| - 1].id};
    }
  }

  /** Each issue number is mapped to the work package of the last item
      with that number, which lies among the items' work packages. */
  lemma {:induction false} TranslationLastWins(items: seq<SpaceItem>, first: int)
    ensures var tm := Translation(items, first);
            && (forall k | 0 <= k < |items| :: items[k].id in tm)
            && (forall k | 0 <= k < |items| && LastWithId(items, k) :: tm[items[k].id] == first + k)
            && (forall x | x in tm :: first <= tm[x] < first + |items|)
  {
    if items != [] {
      var init := items[..|items| - 1];
      var tm, before := Translation(items, first), Translation(init, first);
      assert tm == before[items[|items| - 1].id := first + |items| - 1];
      TranslationLastWins(init, first);
      forall k | 0 <= k < |items|
        ensures items[k].id in tm
        ensures LastWithId(items, k) ==> tm[items[k].id] == first + k
      {
        if k < |init| {
          assert items[k] == init[k];
          if LastWithId(items, k) {
            assert items[|items| - 1].id != items[k].id;
            forall j | k < j < |init|
              ensures init[j].id != init[k].id
            {
              assert init[j] == items[j];
            }
          }
        }
      }
    }
  }

  /** Creating the items into an emptied tracker takes consecutive ids from
      its next id, lists them in item order, relates nothing, and builds
      the translation map of those ids. */
  lemma {:induction false} CreateAllShape(due: DueRule, first: int, items: seq<SpaceItem>)
    requires CreateAll(due, Emptied(first), items).Ok?
    ensures var d := CreateAll(due, Emptied(first), items).value.0;
            && d.nextId == first + |items|
            && |d.order| == |items|
            && (forall k | 0 <= k < |items| :: d.order[k] == first + k)
            && d.relations == []
  {
    if items != [] {
      var n := |items|;
      CreateAllShape(due, first, items[..n - 1]);
      var d0 := CreateAll(due, Emptied(first), items[..n - 1]).value.0;
      var d := CreateAll(due, Emptied(first), items).value.0;
      assert d.order == d0.order + [first + n - 1];
    }
  }

  /** The translation map the create loop builds is that of the new ids. */
  lemma {:induction false} CreateAllTranslation(due: DueRule, first: int, items: seq<SpaceItem>)
    requires CreateAll(due, Emptied(first), items).Ok?
    ensures CreateAll(due, Emptied(first), items).value.1 == Translation(items, first)
  {
    if items != [] {
      CreateAllTranslation(due, first, items[..|items| - 1]);
      CreateAllShape(due, first, items[..|items| - 1]);
    }
  }

  /** Creating the items into an emptied tracker adds exactly the work
      packages with the new ids. */
  lemma {:induction false} CreateAllKeys(due: DueRule, first: int, items: seq<SpaceItem>)
    requires CreateAll(due, Emptied(first), items).Ok?
    ensures var d := CreateAll(due, Emptied(first), items).value.0;
            forall id :: id in d.packages <==> first <= id < first + |items|
  {
    if items != [] {
      CreateAllKeys(due, first, items[..|items| - 1]);
      CreateAllShape(due, first, items[..|items| - 1]);
    }
  }

  /** The work package with id `first + k` is the one made for item `k`:
      named after it, starting on its earliest start, due when the rule
      says, and with no dependencies of its own. */
  ghost predicate Made(due: DueRule, first: int, items: seq<SpaceItem>, packages: map<int, OpenProjectItem>) {
    forall k | 0 <= k < |items| ::
      && first + k in packages
      && due(items[k].earliestStart, items[k].duration).Ok?
      && packages[first + k]
         == OpenProjectItem(first + k, Subject(items[k].id, items[k].title), Some(items[k].earliestStart),
                            Some(due(items[k].earliestStart, items[k].duration).value), [])
  }

  /** Creating the items into an emptied tracker makes each item's work
      package under the id it takes. */
  lemma {:induction false} CreateAllMade(due: DueRule, first: int, items: seq<SpaceItem>)
    requires CreateAll(due, Emptied(first), items).Ok?
    ensures Made(due, first, items, CreateAll(due, Emptied(first), items).value.0.packages)
  {
    CreateAllKeys(due, first, items);
    if items != [] {
      var init := items[..|items| - 1];
      CreateAllMade(due, first, init);
      CreateAllShape(due, first, init);
      var d0 := CreateAll(due, Emptied(first), init).value.0;
      var d := CreateAll(due, Emptied(first), items).value.0;
      var last := items[|items| - 1];
      var dd := due(last.earliestStart, last.duration).value;
      assert d.packages == d0.packages[first + |init| := OpenProjectItem(first + |init|, Subject(last.id, last.title),
                                                                           Some(last.earliestStart), Some(dd), [])];
      forall k | 0 <= k < |items|
        ensures first + k in d.packages && due(items[k].earliestStart, items[k].duration).Ok?
        ensures d.packages[first + k]
                == OpenProjectItem(first + k, Subject(items[k].id, items[k].title), Some(items[k].earliestStart),
                                   Some(due(items[k].earliestStart, items[k].duration).value), [])
      {
        if k < |init| {
          assert items[k] == init[k];
          assert d.packages[first + k] == d0.packages[first + k];
        } else {
          assert items[k] == last;
        }
      }
    }
  }

  /** The relations of one item are made exactly when every dependency is
      mapped; otherwise the first unmapped dependency, in list order, raises
      `KeyError`. */
  lemma {:induction false} RelateDepsOutcome(c: Content, orig: int, deps: seq<nat>, tm: map<int, int>)
    requires orig in c.packages
    requires forall x | x in tm :: tm[x] in c.packages
    ensures RelateDeps(c, orig, deps, tm).Ok? <==> forall j | 0 <= j < |deps| :: deps[j] in tm
    ensures RelateDeps(c, orig, deps, tm).Err? ==>
              var e := RelateDeps(c, orig, deps, tm).error;
              e.KeyError? && e.key.Number? && e.key.n !in tm
    ensures RelateDeps(c, orig, deps, tm).Err? ==>
              exists j | 0 <= j < |deps| ::
                && deps[j] !in tm && (forall i | 0 <= i < j :: deps[i] in tm)
                && RelateDeps(c, orig, deps, tm).error == KeyError(Number(deps[j]))
  {
    if deps != [] {
      var init := deps[..|deps| - 1];
      RelateDepsOutcome(c, orig, init, tm);
      assert forall j | 0 <= j < |init| :: init[j] == deps[j];
      if RelateDeps(c, orig, init, tm).Ok? {
        RelateDepsKeeps(c, orig, init, tm);
        if RelateDeps(c, orig, deps, tm).Err? {
          var j := |deps| - 1;
          assert deps[j] !in tm && forall i | 0 <= i < j :: deps[i] in tm;
        }
      }
    }
  }

  /** The relations of one item, when made, are added in dependency order. */
  lemma {:induction false} RelateDepsLinks(c: Content, orig: int, deps: seq<nat>, tm: map<int, int>)
    requires RelateDeps(c, orig, deps, tm).Ok?
    requires forall j | 0 <= j < |deps| :: deps[j] in tm
    ensures RelateDeps(c, orig, deps, tm).value == c.(relations := c.relations + DepLinks(orig, deps, tm))
  {
    if deps != [] {
      var init := deps[..|deps| - 1];
      var dep := deps[|deps| - 1];
      assert forall j | 0 <= j < |init| :: init[j] == deps[j];
      RelateDepsLinks(c, orig, init, tm);
      assert DepLinks(orig, deps, tm) == DepLinks(orig, init, tm) + [Follows(orig, tm[dep])];
    }
  }

  /** Relating touches nothing but the relations. */
  lemma {:induction false} RelateDepsKeeps(c: Content, orig: int, deps: seq<nat>, tm: map<int, int>)
    requires RelateDeps(c, orig, deps, tm).Ok?
    ensures RelateDeps(c, orig, deps, tm).value == c.(relations := RelateDeps(c, orig, deps, tm).value.relations)
  {
    if deps != [] {
      RelateDepsKeeps(c, orig, deps[..|deps| - 1], tm);
    }
  }

  lemma {:induction false} RelateAllKeeps(c: Content, items: seq<SpaceItem>, tm: map<int, int>)
    requires RelateAll(c, items, tm).Ok?
    ensures RelateAll(c, items, tm).value == c.(relations := RelateAll(c, items, tm).value.relations)
  {
    if items != [] {
      var init := items[..|items| - 1];
      RelateAllKeeps(c, init, tm);
      var d := RelateAll(c, init, tm).value;
      RelateDepsKeeps(d, tm[items[|items| - 1].id], items[|items| - 1].dependentOn, tm);
    }
  }

  /** The relations loop succeeds exactly when every dependency is
      mapped; otherwise it raises `KeyError` for an unmapped one. */
  lemma {:induction false} RelateAllOutcome(c: Content, items: seq<SpaceItem>, tm: map<int, int>)
    requires forall k | 0 <= k < |items| :: items[k].id in tm
    requires forall x | x in tm :: tm[x] in c.packages
    ensures RelateAll(c, items, tm).Ok? <==>
              forall k, j | 0 <= k < |items| && 0 <= j < |items[k].dependentOn| :: items[k].dependentOn[j] in tm
    ensures RelateAll(c, items, tm).Err? ==>
              var e := RelateAll(c, items, tm).error;
              e.KeyError? && e.key.Number? && e.key.n !in tm
  {
    if items != [] {
      var init := items[..|items| - 1];
      var item := items[|items| - 1];
      assert forall k | 0 <= k < |init| :: init[k] == items[k];
      RelateAllOutcome(c, init, tm);
      if RelateAll(c, init, tm).Ok? {
        RelateAllKeeps(c, init, tm);
        RelateDepsOutcome(RelateAll(c, init, tm).value, tm[item.id], item.dependentOn, tm);
      }
    }
  }

  /** The relations loop, when it succeeds, adds one relation per (item,
      dependency) pair, item by item and in dependency order. */
  lemma {:induction false} RelateAllLinks(c: Content, items: seq<SpaceItem>, tm: map<int, int>)
    requires RelateAll(c, items, tm).Ok?
    requires forall k | 0 <= k < |items| :: items[k].id in tm
    requires forall k, j | 0 <= k < |items| && 0 <= j < |items[k].dependentOn| :: items[k].dependentOn[j] in tm
    ensures RelateAll(c, items, tm).value == c.(relations := c.relations + Links(items, tm))
  {
    if items != [] {
      var init := items[..|items| - 1];
      var item := items[|items| - 1];
      assert forall k | 0 <= k < |init| :: init[k] == items[k];
      RelateAllLinks(c, init, tm);
      RelateDepsLinks(RelateAll(c, init, tm).value, tm[item.id], item.dependentOn, tm);
    }
  }

  /** When every request is served, applying changed items succeeds
      exactly when every due date can be computed and every dependency is
      one of the items; otherwise it raises `OverflowError` for the first
      failing due date, or else `KeyError` for a dependency that is not an
      item. */
  lemma {:induction false} ApplyOutcome(due: DueRule, c: Content, items: seq<SpaceItem>)
    requires OnlyOverflows(due)
    ensures Apply(due, c, items).Ok? <==> NoOverflow(due, items) && DepsKnown(items)
    ensures !NoOverflow(due, items) ==> Apply(due, c, items) == Err(OverflowError)
    ensures NoOverflow(due, items) && !DepsKnown(items) ==>
              Apply(due, c, items).Err? && Apply(due, c, items).error.KeyError?
              && Apply(due, c, items).error.key.Number? && Apply(due, c, items).error.key.n !in Ids(items)
  {
    CreateAllOverflow(due, Emptied(c.nextId), items);
    if NoOverflow(due, items) {
      var (d, tm) := CreateAll(due, Emptied(c.nextId), items).value;
      ApplyRelates(due, c, items);
      RelateAllOutcome(d, items, tm);
      TranslationKeys(items, c.nextId);
    }
  }

  /** After the create loop of an apply, the relations loop runs over the
      translation map of the new work packages, all of which exist. */
  lemma {:induction false} ApplyRelates(due: DueRule, c: Content, items: seq<SpaceItem>)
    requires CreateAll(due, Emptied(c.nextId), items).Ok?
    ensures var (d, tm) := CreateAll(due, Emptied(c.nextId), items).value;
            && tm == Translation(items, c.nextId)
            && d.relations == []
            && (forall k | 0 <= k < |items| :: items[k].id in tm)
            && (forall x | x in tm :: tm[x] in d.packages)
            && Apply(due, c, items) == RelateAll(d, items, tm)
  {
    var (d, tm) := CreateAll(due, Emptied(c.nextId), items).value;
    CreateAllShape(due, c.nextId, items);
    CreateAllTranslation(due, c.nextId, items);
    CreateAllKeys(due, c.nextId, items);
    TranslationKeys(items, c.nextId);
    TranslationLastWins(items, c.nextId);
  }

  /** A successful apply leaves only the new work packages, with
      consecutive ids from the tracker's next id, listed in item order. */
  lemma {:induction false} ApplyShape(due: DueRule, c: Content, items: seq<SpaceItem>)
    requires Apply(due, c, items).Ok?
    ensures var e, first := Apply(due, c, items).value, c.nextId;
            && e.nextId == first + |items|
            && |e.order| == |items|
            && (forall k | 0 <= k < |items| :: e.order[k] == first + k)
            && (forall id :: id in e.packages <==> first <= id < first + |items|)
  {
    var (d, tm) := CreateAll(due, Emptied(c.nextId), items).value;
    RelateAllKeeps(d, items, tm);
    CreateAllShape(due, c.nextId, items);
    CreateAllKeys(due, c.nextId, items);
  }

  /** In a successful apply, the work package of item `k` is named after
      it and scheduled from its earliest start to the due date the rule
      gives. */
  lemma {:induction false} ApplyPackages(due: DueRule, c: Content, items: seq<SpaceItem>)
    requires Apply(due, c, items).Ok?
    ensures Made(due, c.nextId, items, Apply(due, c, items).value.packages)
  {
    var (d, tm) := CreateAll(due, Emptied(c.nextId), items).value;
    RelateAllKeeps(d, items, tm);
    CreateAllMade(due, c.nextId, items);
  }

  /** The relations a successful apply leaves: one `follows` relation per
      (item, dependency) pair, item by item, linking the work packages the
      translation map names. */
  lemma {:induction false} ApplyRelations(due: DueRule, c: Content, items: seq<SpaceItem>)
    requires Apply(due, c, items).Ok?
    ensures var tm := Translation(items, c.nextId);
            && (forall k | 0 <= k < |items| :: items[k].id in tm)
            && (forall k, j | 0 <= k < |items| && 0 <= j < |items[k].dependentOn| ::
                  items[k].dependentOn[j] in tm)
            && Apply(due, c, items).value.relations == Links(items, tm)
  {
    var (d, tm) := CreateAll(due, Emptied(c.nextId), items).value;
    ApplyRelates(due, c, items);
    RelateAllOutcome(d, items, tm);
    RelateAllLinks(d, items, tm);
  }

  // ---------------------------------------------- with the calendar rule

  /** `AddDays` fails only by overflowing. */
  lemma AddDaysOnlyOverflows()
    ensures OnlyOverflows(AddDays)
  {
  }

  /** With the calendar, applying changed items succeeds exactly when no
      item's due date falls after 9999-12-31 and every dependency is one
      of the items. */
  lemma {:induction false} CalendarApplyOutcome(c: Content, items: seq<SpaceItem>)
    ensures Apply(AddDays, c, items).Ok? <==>
              && (forall k | 0 <= k < |items| :: Ordinal(items[k].earliestStart) + items[k].duration <= MaxOrdinal)
              && DepsKnown(items)
    ensures (exists k | 0 <= k < |items| :: Ordinal(items[k].earliestStart) + items[k].duration > MaxOrdinal) ==>
              Apply(AddDays, c, items) == Err(OverflowError)
  {
    AddDaysOnlyOverflows();
    ApplyOutcome(AddDays, c, items);
  }

  // ------------------------------------------------------------ the run

  /** The create loop of `space_to_openproject`: one work package per
      item, in order, each due when `due` says (the run passes `AddDays`),
      recording which work package each issue number became. */
  method CreatePackages(dest: OpenProject, items: seq<SpaceItem>, due: DueRule) returns (r: Result<map<int, int>>)
    requires dest.Valid()
    modifies dest
    ensures dest.Valid() && old(dest.sent) <= dest.sent
    ensures r.Ok? ==> CreateAll(due, old(dest.Contents()), items) == Ok((dest.Contents(), r.value))
    ensures r.Err? && dest.ServesFrom(old(dest.sent)) ==> CreateAll(due, old(dest.Contents()), items) == Err(r.error)
  {
    ghost var c := dest.Contents();
    ghost var serves := dest.ServesFrom(dest.sent);
    var tm: map<int, int> := map[];
    var i := 0;
    while i < |items|
      invariant 0 <= i <= |items|
      invariant dest.Valid() && old(dest.sent) <= dest.sent
      invariant CreateAll(due, c, items[..i]) == Ok((dest.Contents(), tm))
      invariant serves ==> dest.ServesFrom(dest.sent)
    {
      var item := items[i];
      assert items[..i + 1][..i] == items[..i] && items[..i + 1][i] == item;
      var dueDate := due(item.earliestStart, item.duration);
      if dueDate.Err? {
        CreateAllErrPersists(due, c, items, i + 1);
        return Err(dueDate.error);
      }
      var wp := dest.CreateWorkPackage(Subject(item.id, item.title), item.earliestStart, dueDate.value);
      if wp.Err? {
        return Err(wp.error);
      }
      tm := tm[item.id := wp.value.id];
      i := i + 1;
    }
    assert items[..i] == items;
    return Ok(tm);
  }

  /** The inner relations loop: `orig` follows each dependency's work
      package in turn. */
  method RelateDependencies(dest: OpenProject, orig: int, deps: seq<nat>, tm: map<int, int>) returns (r: Result<()>)
    requires dest.Valid()
    modifies dest
    ensures dest.Valid() && old(dest.sent) <= dest.sent
    ensures r.Ok? ==> RelateDeps(old(dest.Contents()), orig, deps, tm) == Ok(dest.Contents())
    ensures r.Err? && dest.ServesFrom(old(dest.sent)) ==> RelateDeps(old(dest.Contents()), orig, deps, tm) == Err(r.error)
  {
    ghost var c := dest.Contents();
    ghost var serves := dest.ServesFrom(dest.sent);
    var j := 0;
    while j < |deps|
      invariant 0 <= j <= |deps|
      invariant dest.Valid() && old(dest.sent) <= dest.sent
      invariant RelateDeps(c, orig, deps[..j], tm) == Ok(dest.Contents())
      invariant serves ==> dest.ServesFrom(dest.sent)
    {
      var dep := deps[j];
      assert deps[..j + 1][..j] == deps[..j] && deps[..j + 1][j] == dep;
      if dep !in tm {
        RelateDepsErrPersists(c, orig, deps, tm, j + 1);
        return Err(KeyError(Number(dep)));
      }
      var rel := dest.CreateRelation(orig, tm[dep]);
      if rel.Err? {
        if serves {
          RelateDepsErrPersists(c, orig, deps, tm, j + 1);
        }
        return Err(rel.error);
      }
      j := j + 1;
    }
    assert deps[..j] == deps;
    return Ok(());
  }

  /** The outer relations loop, item by item. */
  method RelateItems(dest: OpenProject, items: seq<SpaceItem>, tm: map<int, int>) returns (r: Result<()>)
    requires dest.Valid()
    modifies dest
    ensures dest.Valid() && old(dest.sent) <= dest.sent
    ensures r.Ok? ==> RelateAll(old(dest.Contents()), items, tm) == Ok(dest.Contents())
    ensures r.Err? && dest.ServesFrom(old(dest.sent)) ==> RelateAll(old(dest.Contents()), items, tm) == Err(r.error)
  {
    ghost var c := dest.Contents();
    ghost var serves := dest.ServesFrom(dest.sent);
    var i := 0;
    while i < |items|
      invariant 0 <= i <= |items|
      invariant dest.Valid() && old(dest.sent) <= dest.sent
      invariant RelateAll(c, items[..i], tm) == Ok(dest.Contents())
      invariant serves ==> dest.ServesFrom(dest.sent)
    {
      var item := items[i];
      assert items[..i + 1][..i] == items[..i] && items[..i + 1][i] == item;
      if item.id !in tm {
        RelateAllErrPersists(c, items, tm, i + 1);
        return Err(KeyError(Number(item.id)));
      }
      var related := RelateDependencies(dest, tm[item.id], item.dependentOn, tm);
      if related.Err? {
        if serves {
          RelateAllErrPersists(c, items, tm, i + 1);
        }
        return Err(related.error);
      }
      i := i + 1;
    }
    assert items[..i] == items;
    return Ok(());
  }

  /** `space_to_openproject`: one synchronisation run, reading Space
      through `space` (whose listing needs at most `fuel` requests) and
      writing to the tracker behind `dest`.  Whatever happens, the
      snapshot changes only when the run gets to the end; when no request
      to the tracker is refused, the run ends as `Expected` says. */
  method SpaceToOpenProject(space: SpaceServer, ghost fuel: nat, dest: OpenProject, store: SnapshotStore)
      returns (r: Result<Outcome>)
    requires Fetch(space.issues, SpaceStep, None, fuel).Some?
    requires dest.Valid()
    modifies dest, store
    ensures dest.Valid()
    ensures var read := FetchItems(space, fuel).value;
            && (read.Err? ==> r == Err(read.error))
            && (r == Ok(UpToDate) <==> read == Ok(old(store.Previous())))
            && (r.Err? || r == Ok(UpToDate) ==> store.blob == old(store.blob))
            && (read.Err? || r == Ok(UpToDate) ==> dest.Contents() == old(dest.Contents()))
            && (r == Ok(Synced) ==>
                  && read.Ok?
                  && Apply(AddDays, old(dest.Contents()), read.value) == Ok(dest.Contents())
                  && store.blob == Some(read.value))
            && (dest.ServesFrom(old(dest.sent)) ==>
                  r == Expected(AddDays, old(dest.Contents()), old(store.Previous()), read))
  {
    var read := GetFromSpace(space, fuel);
    if read.Err? {
      return Err(read.error);
    }
    var items := read.value;
    var changed := store.Updated(items);
    if !changed {
      return Ok(UpToDate);
    }
    var cleared := dest.ClearWorkPackages();
    if cleared.Err? {
      return Err(cleared.error);
    }
    var created := CreatePackages(dest, items, AddDays);
    if created.Err? {
      return Err(created.error);
    }
    var related := RelateItems(dest, items, created.value);
    if related.Err? {
      return Err(related.error);
    }
    store.Save(items);
    return Ok(Synced);
  }
}
