/** The four soft-deletable resources (categories, artists, samples and carts), whose
    helpers are one template instantiated four times: a filtered, paginated listing with a
    split count around a timestamp, lookup by id, add and edit with unique names, the
    Active/Inactive toggle, and the soft-delete, restore and permanent-delete transitions.
    A collection is a sequence in creation order; the listing's newest-first sort is its
    reverse. Artists and samples are numbered by their save hooks. */
module Resource {
  import opened Base
  import Types
  import CodeGen

  datatype Kind = Category | Artist | Sample | Cart

  datatype Status = Active | Inactive

  function StatusName(s: Status): string
  {
    if s == Active then "Active" else "Inactive"
  }

  datatype Item = Item(id: string, code: Option<string>, name: string, status: Status,
                       isDeleted: bool, deletedAt: Option<int>, createdAt: int)

  /** The capitalised noun of a kind's messages. */
  function Noun(k: Kind): string
  {
    match k
    case Category => "Category"
    case Artist => "Artist"
    case Sample => "Sample"
    case Cart => "Cart"
  }

  /** The lower-case noun of a kind's messages: the artist helper was copied from the
      sample helper and still says "sample". */
  function Lower(k: Kind): string
  {
    match k
    case Category => "category"
    case Artist => "sample"
    case Sample => "sample"
    case Cart => "cart"
  }

  /** The code prefix of the kinds whose schema numbers new documents. */
  function Prefix(k: Kind): Option<string>
  {
    match k
    case Artist => Some(CodeGen.ArtistPrefix)
    case Sample => Some(CodeGen.SamplePrefix)
    case _ => None
  }

  predicate Given(v: Option<string>)
  {
    v.Some? && v.value != ""
  }

  predicate ValidId(id: Option<string>)
  {
    Given(id) && Types.ValidObjectId(id.value)
  }

  datatype Outcome<T> = Outcome(store: seq<Item>, result: Settle<T>)

  datatype Reply = Reply(message: string, record: Option<Item>)

  function Fail<T>(store: seq<Item>, f: Failure, fallback: string): (o: Outcome<T>)
    requires fallback != ""
    ensures o.store == store && o.result.Rejects? && o.result.failure.statusCode.Some?
  {
    Outcome(store, Rejects(Caught(f, fallback)))
  }

  /** The catch block of the listing, lookup and add helpers, which reads the error's
      class name as well. */
  function FailNamed<T>(store: seq<Item>, f: Failure, name: string, fallback: string): (o: Outcome<T>)
    requires fallback != ""
    ensures o.store == store && o.result.Rejects?
    ensures f.code == NoCode && name != "" ==> o.result.failure.code == Named(name)
  {
    Outcome(store, Rejects(CaughtNamed(f, name, fallback)))
  }

  predicate UniqueIds(store: seq<Item>)
  {
    forall a, b :: 0 <= a < b < |store| ==> store[a].id != store[b].id
  }

  predicate UniqueNames(store: seq<Item>)
  {
    forall a, b :: 0 <= a < b < |store| ==> store[a].name != store[b].name
  }

  /** A save writes the item over the stored one with the same id. */
  function Put(store: seq<Item>, it: Item): (r: seq<Item>)
    ensures |r| == |store|
    ensures forall i :: 0 <= i < |store| ==> r[i] == (if store[i].id == it.id then it else store[i])
  {
    seq(|store|, i requires 0 <= i < |store| => if store[i].id == it.id then it else store[i])
  }

  function FindFirstItem(store: seq<Item>, p: Item -> bool): (r: Option<nat>)
    ensures r.Some? ==> r.value < |store| && p(store[r.value])
    ensures r.Some? ==> forall j :: 0 <= j < r.value ==> !p(store[j])
    ensures r.None? <==> forall j :: 0 <= j < |store| ==> !p(store[j])
  {
    FindFirst(store, p)
  }

  // ---------------------------------------------------------------- listing

  /** The listing's query. `timestamp` is the parsed timestamp, or `None` when it is
      missing or does not parse; `statuses` is the list the controller derives. */
  datatype ListQuery = ListQuery(timestamp: Option<int>, page: int, limit: int, code: Option<string>,
                                 name: Option<string>, statuses: Option<seq<Status>>, deleted: Types.Deleted)

  /** The filter shared by the listing and both counts. */
  predicate Matches(q: ListQuery, it: Item)
  {
    (!Given(q.code) || (it.code.Some? && Contains(it.code.value, q.code.value)))
    && (!Given(q.name) || Contains(it.name, q.name.value))
    && (q.statuses.None? || it.status in q.statuses.value)
    && (q.deleted == Types.BOTH || it.isDeleted == (q.deleted == Types.YES))
  }

  /** Created no later than the timestamp, or any time when there is none. */
  predicate NotLater(q: ListQuery, it: Item)
  {
    q.timestamp.None? || it.createdAt <= q.timestamp.value
  }

  /** The items a listing sorts: matching, and created no later than the timestamp. */
  function Listable(q: ListQuery): Item -> bool
  {
    (it: Item) => Matches(q, it) && NotLater(q, it)
  }

  /** Created after the timestamp. */
  predicate Later(q: ListQuery, it: Item)
  {
    q.timestamp.Some? && it.createdAt > q.timestamp.value
  }

  /** An item as listed: the deletion fields only in the YES and BOTH modes. */
  datatype Listed = Listed(id: string, code: Option<string>, name: string, status: Status, createdAt: int,
                           deletion: Option<(bool, Option<int>)>)

  function View(it: Item, deleted: Types.Deleted): (v: Listed)
    ensures v.id == it.id && v.code == it.code && v.name == it.name && v.status == it.status && v.createdAt == it.createdAt
    ensures v.deletion.Some? <==> deleted != Types.NO
    ensures v.deletion.Some? ==> v.deletion.value == (it.isDeleted, it.deletedAt)
  {
    Listed(it.id, it.code, it.name, it.status, it.createdAt, if deleted != Types.NO then Some((it.isDeleted, it.deletedAt)) else None)
  }

  datatype Page = Page(message: string, currentPage: int, results: seq<Listed>, latestCount: nat,
                       totalCount: nat, totalPages: int)

  function Reverse<T>(s: seq<T>): (r: seq<T>)
    ensures |r| == |s|
    ensures forall i :: 0 <= i < |s| ==> r[i] == s[|s| - 1 - i]
  {
    if |s| == 0 then [] else [s[|s| - 1]] + Reverse(s[..|s| - 1])
  }

  /** `.limit(limit).skip(skip)`, where a limit of 0 means no limit. */
  function Window<T>(s: seq<T>, limit: nat, skip: nat): (r: seq<T>)
    ensures limit > 0 ==> |r| <= limit
    ensures skip >= |s| ==> r == []
    ensures skip < |s| ==> r == s[skip..if limit == 0 || skip + limit > |s| then |s| else skip + limit]
  {
    if skip >= |s| then []
    else if limit == 0 || skip + limit > |s| then s[skip..]
    else s[skip..skip + limit]
  }

  /** `Math.ceil(a / b)` for a positive divisor. */
  function CeilDiv(a: nat, b: int): (r: nat)
    requires b > 0
    ensures r * b >= a && (r == 0 || (r - 1) * b < a)
  {
    (a + b - 1) / b
  }

  /** The error the database raises for a negative skip, which a page below 1 produces. */
  const NegativeSkip := Failure("skip value must be non-negative", None, Named(DatabaseErrorName))

  /** The class name of the errors the database server reports. */
  const DatabaseErrorName := "MongoServerError"

  function SkipOf(q: ListQuery): int
  {
    if q.limit == -1 then 0 else q.limit * (q.page - 1)
  }

  /** The matching items created no later than the timestamp, newest first. */
  function Sorted(store: seq<Item>, q: ListQuery): (r: seq<Item>)
    ensures forall x :: x in r ==> x in store && Matches(q, x) && NotLater(q, x)
    ensures forall j :: 0 <= j < |store| && Matches(q, store[j]) && NotLater(q, store[j]) ==> store[j] in r
    ensures |r| == Count(store, Listable(q))
  {
    var m := Filter(store, Listable(q));
    ReverseKeeps(m);
    Reverse(m)
  }

  /** Reversing keeps exactly the elements it was given. */
  lemma ReverseKeeps<T>(s: seq<T>)
    ensures forall x :: x in Reverse(s) <==> x in s
  {
    var r := Reverse(s);
    forall x | x in r
      ensures x in s
    {
      var i :| 0 <= i < |r| && r[i] == x;
      assert s[|s| - 1 - i] == x;
    }
    forall x | x in s
      ensures x in r
    {
      var i :| 0 <= i < |s| && s[i] == x;
      assert r[|s| - 1 - i] == x;
    }
  }

  /** The listing's order is the reverse of the collection's: `m` gives the stored position
      of every listed item, descending, and every stored match created no later than the
      timestamp has its position in `m`. */
  lemma SortedPositions(store: seq<Item>, q: ListQuery) returns (m: seq<nat>)
    ensures |m| == |Sorted(store, q)|
    ensures forall k :: 0 <= k < |m| ==> m[k] < |store| && Sorted(store, q)[k] == store[m[k]]
    ensures forall k, l :: 0 <= k < l < |m| ==> m[k] > m[l]
    ensures forall j :: 0 <= j < |store| && Matches(q, store[j]) && NotLater(q, store[j]) ==> j in m
  {
    m := ReversedSelection(store, Listable(q));
    assert Sorted(store, q) == Reverse(Filter(store, Listable(q)));
    forall j | 0 <= j < |store| && Matches(q, store[j]) && NotLater(q, store[j])
      ensures j in m
    {
      assert Listable(q)(store[j]);
    }
  }

  /** The satisfying elements of `s`, reversed, sit at descending positions that include
      every satisfying one. */
  lemma ReversedSelection<T>(s: seq<T>, p: T -> bool) returns (m: seq<nat>)
    ensures |m| == |Reverse(Filter(s, p))|
    ensures forall k :: 0 <= k < |m| ==> m[k] < |s| && Reverse(Filter(s, p))[k] == s[m[k]]
    ensures forall k, l :: 0 <= k < l < |m| ==> m[k] > m[l]
    ensures forall j :: 0 <= j < |s| && p(s[j]) ==> j in m
  {
    var f := FilterPositions(s, p);
    m := Reverse(f);
    ReversedAt(s, Filter(s, p), f);
    ReversedDescend(f);
    ReverseKeeps(f);
  }

  /** A selection and its positions, reversed together, still line up. */
  lemma ReversedAt<T>(s: seq<T>, r: seq<T>, f: seq<nat>)
    requires |f| == |r|
    requires forall k :: 0 <= k < |f| ==> f[k] < |s| && r[k] == s[f[k]]
    ensures forall k :: 0 <= k < |f| ==> Reverse(f)[k] < |s| && Reverse(r)[k] == s[Reverse(f)[k]]
  {
  }

  /** Ascending positions, reversed, descend. */
  lemma ReversedDescend(f: seq<nat>)
    requires forall k, l :: 0 <= k < l < |f| ==> f[k] < f[l]
    ensures forall k, l :: 0 <= k < l < |f| ==> Reverse(f)[k] > Reverse(f)[l]
  {
  }

  /** When the collection is in creation order, the listing is newest first. */
  lemma SortedNewestFirst(store: seq<Item>, q: ListQuery)
    requires forall i, j :: 0 <= i < j < |store| ==> store[i].createdAt <= store[j].createdAt
    ensures var r := Sorted(store, q);
      forall k, l :: 0 <= k < l < |r| ==> r[k].createdAt >= r[l].createdAt
  {
    var m := SortedPositions(store, q);
  }

  /** The page asked for does not change which items are sorted. */
  lemma SortedIgnoresPage(store: seq<Item>, q: ListQuery, page: int)
    ensures Sorted(store, q.(page := page)) == Sorted(store, q)
  {
    var q' := q.(page := page);
    FilterSame(store, Listable(q'), Listable(q));
  }

  /** `skip` is negative exactly when a positive limit meets a page below 1. */
  lemma SkipSign(q: ListQuery)
    requires q.limit > 0 || q.limit == -1
    ensures SkipOf(q) < 0 <==> q.limit > 0 && q.page < 1
  {
    if q.limit > 0 && q.page < 1 {
      assert q.limit * (q.page - 1) <= q.limit * -1;
    } else if q.limit > 0 {
      assert q.limit * (q.page - 1) >= 0;
    }
  }

  /** The listed window of the newest-first matches, `.limit(limit).skip(skip)`. */
  function Shown(s: seq<Item>, q: ListQuery, skip: nat): (r: seq<Listed>)
    requires q.limit > 0 || q.limit == -1
    ensures q.limit > 0 ==> |r| <= q.limit
    ensures q.limit == -1 && skip == 0 ==> |r| == |s|
    ensures forall j :: 0 <= j < |r| ==> skip + j < |s| && r[j] == View(s[skip + j], q.deleted)
    ensures skip < |s| && q.limit > 0 ==> |r| == if skip + q.limit > |s| then |s| - skip else q.limit
  {
    var w := Window(s, if q.limit == -1 then 0 else q.limit, skip);
    seq(|w|, j requires 0 <= j < |w| => View(w[j], q.deleted))
  }

  /** `Math.ceil(total / limit)`; a limit of -1 gives a negative count. */
  function TotalPages(total: nat, limit: int): (r: int)
    requires limit > 0 || limit == -1
    ensures limit == -1 ==> r == -(total as int)
    ensures limit > 0 ==> r >= 0 && r * limit >= total && (r == 0 || (r - 1) * limit < total)
  {
    if limit == -1 then -(total as int) else CeilDiv(total, limit)
  }

  /** The number of matches created after the timestamp, 0 without one. */
  function LatestCount(store: seq<Item>, q: ListQuery): nat
  {
    if q.timestamp.Some? then Count(store, (it: Item) => Matches(q, it) && Later(q, it)) else 0
  }

  /** The page a listing with a valid skip answers: the window of the newest-first
      matches, the two counts and the page count. */
  function PageAt(k: Kind, store: seq<Item>, q: ListQuery, skip: nat): Page
    requires q.limit > 0 || q.limit == -1
  {
    var s := Sorted(store, q);
    var r := Shown(s, q, skip);
    Page(if |r| > 0 then Noun(k) + "s fetched" else Noun(k) + " is empty", q.page, r,
         LatestCount(store, q), |s|, TotalPages(|s|, q.limit))
  }

  /** `getCategorys` / `getArtists` / `getSamples` / `getCarts`. Page and limit are the
      parsed integers; a limit of -1 lists everything. */
  function List(k: Kind, store: seq<Item>, q: ListQuery): (o: Settle<Page>)
    requires q.limit > 0 || q.limit == -1
    ensures o.Rejects? <==> q.limit > 0 && q.page < 1
    ensures !o.NeverSettles?
    ensures o.Resolves? ==> SkipOf(q) >= 0 && o.value == PageAt(k, store, q, SkipOf(q))
  {
    SkipSign(q);
    var skip := SkipOf(q);
    if skip < 0 then Rejects(CaughtNamed(NegativeSkip, DatabaseErrorName, Noun(k) + " fetching failed"))
    else Resolves(PageAt(k, store, q, skip))
  }

  /** Counting the elements satisfying `p` splits over two exclusive predicates covering it. */
  lemma {:induction false} CountSplit<T>(s: seq<T>, p: T -> bool, a: T -> bool, b: T -> bool)
    requires forall x :: p(x) == (a(x) || b(x))
    requires forall x :: !(a(x) && b(x))
    ensures Count(s, p) == Count(s, a) + Count(s, b)
  {
    if |s| > 0 {
      CountSplit(s[..|s| - 1], p, a, b);
    }
  }

  /** With a timestamp, the total count and the latest count together count every
      matching item, each exactly once; without one, the total counts them all. */
  lemma {:induction false} CountsPartitionMatches(k: Kind, store: seq<Item>, q: ListQuery)
    requires q.limit > 0 || q.limit == -1
    requires List(k, store, q).Resolves?
    ensures var p := List(k, store, q).value;
      p.totalCount + p.latestCount == Count(store, (it: Item) => Matches(q, it))
  {
    var all := (it: Item) => Matches(q, it);
    var early := Listable(q);
    var late := (it: Item) => Matches(q, it) && Later(q, it);
    if q.timestamp.Some? {
      CountSplit(store, all, early, late);
    } else {
      CountSame(store, all, early);
    }
  }

  lemma {:induction false} CountSame<T>(s: seq<T>, p: T -> bool, p': T -> bool)
    requires forall x :: p(x) == p'(x)
    ensures Count(s, p) == Count(s, p')
  {
    if |s| > 0 {
      CountSame(s[..|s| - 1], p, p');
    }
  }

  /** With a positive limit, the matching item at position `i` of the newest-first order is
      listed on page `i / limit + 1`, at position `i % limit`. */
  lemma {:induction false} EveryMatchHasAPage(k: Kind, store: seq<Item>, q: ListQuery, i: nat)
    requires q.limit > 0 && i < |Sorted(store, q)|
    requires q.page == i / q.limit + 1
    ensures List(k, store, q).Resolves?
    ensures var r := List(k, store, q).value.results;
      i % q.limit < |r| && r[i % q.limit] == View(Sorted(store, q)[i], q.deleted)
  {
    SkipSign(q);
    ShownAt(Sorted(store, q), q, i);
  }

  /** Element `i` of a sequence is shown at position `i % limit` of page `i / limit + 1`. */
  lemma ShownAt(s: seq<Item>, q: ListQuery, i: nat)
    requires q.limit > 0 && i < |s|
    requires q.page == i / q.limit + 1
    ensures SkipOf(q) >= 0
    ensures var r := Shown(s, q, SkipOf(q));
      i % q.limit < |r| && r[i % q.limit] == View(s[i], q.deleted)
  {
    var skip := SkipOf(q);
    PageArithmetic(q.limit, i);
    assert skip + i % q.limit == i;
    var r := Shown(s, q, skip);
    assert i % q.limit < |r|;
  }

  /** Page `i / l + 1` starts at `i - i % l`. */
  lemma PageArithmetic(l: int, i: nat)
    requires l > 0
    ensures l * ((i / l + 1) - 1) + i % l == i
  {
    assert (i / l + 1) - 1 == i / l;
  }

  /** With a positive limit, every stored item that matches and was created no later than
      the timestamp is listed on some page. */
  lemma StoredMatchListed(k: Kind, store: seq<Item>, q: ListQuery, j: nat) returns (page: int)
    requires q.limit > 0
    requires j < |store| && Matches(q, store[j]) && NotLater(q, store[j])
    ensures page >= 1
    ensures List(k, store, q.(page := page)).Resolves?
    ensures View(store[j], q.deleted) in List(k, store, q.(page := page)).value.results
  {
    var m := SortedPositions(store, q);
    var i :| 0 <= i < |m| && m[i] == j;
    page := i / q.limit + 1;
    SortedIgnoresPage(store, q, page);
    EveryMatchHasAPage(k, store, q.(page := page), i);
  }

  /** `v` is the view of a stored item matching the query. */
  predicate Drawn(store: seq<Item>, q: ListQuery, v: Listed)
  {
    exists x :: x in store && Matches(q, x) && v == View(x, q.deleted)
  }

  /** Every entry of `r` is the view of a stored item matching the query. */
  predicate FromStore(store: seq<Item>, q: ListQuery, r: seq<Listed>)
  {
    forall j :: 0 <= j < |r| ==> Drawn(store, q, r[j])
  }

  /** Every entry of a page is the view of a stored item matching the query. */
  lemma {:induction false} PageEntriesAreStored(k: Kind, store: seq<Item>, q: ListQuery, skip: nat)
    requires q.limit > 0 || q.limit == -1
    ensures FromStore(store, q, PageAt(k, store, q, skip).results)
  {
    var s := Sorted(store, q);
    var r := Shown(s, q, skip);
    assert PageAt(k, store, q, skip).results == r;
    forall j | 0 <= j < |r|
      ensures Drawn(store, q, r[j])
    {
      var x := s[skip + j];
      assert x in s;
      assert x in store && Matches(q, x) && r[j] == View(x, q.deleted);
    }
  }

  /** Every listed entry is the view of a stored item matching the query. */
  lemma {:induction false} ListedAreStored(k: Kind, store: seq<Item>, q: ListQuery)
    requires q.limit > 0 || q.limit == -1
    requires List(k, store, q).Resolves?
    ensures FromStore(store, q, List(k, store, q).value.results)
  {
    var skip := SkipOf(q);
    assert skip >= 0 && List(k, store, q).value == PageAt(k, store, q, skip);
    PageEntriesAreStored(k, store, q, skip);
  }

  /** The deletion state of an entry drawn from a stored item under a deleted mode: NO
      shows a live item without deletion fields, YES a deleted item with its fields, BOTH
      either item with its fields. */
  predicate DeletionOf(store: seq<Item>, mode: Types.Deleted, v: Listed)
  {
    exists x ::
      (x in store && x.id == v.id
       && (mode == Types.NO ==> !x.isDeleted && v.deletion.None?)
       && (mode == Types.YES ==> x.isDeleted && v.deletion == Some((true, x.deletedAt)))
       && (mode == Types.BOTH ==> v.deletion == Some((x.isDeleted, x.deletedAt))))
  }

  lemma {:induction false} DeletionShownFromStore(store: seq<Item>, q: ListQuery, r: seq<Listed>)
    requires FromStore(store, q, r)
    ensures forall j :: 0 <= j < |r| ==> DeletionOf(store, q.deleted, r[j])
  {
    forall j | 0 <= j < |r|
      ensures DeletionOf(store, q.deleted, r[j])
    {
      assert Drawn(store, q, r[j]);
      var x :| x in store && Matches(q, x) && r[j] == View(x, q.deleted);
      assert x.id == r[j].id;
      if q.deleted == Types.YES {
        assert x.isDeleted && r[j].deletion == Some((x.isDeleted, x.deletedAt));
      }
    }
  }

  /** The deleted mode decides what deletion state the listed items have: NO lists only
      live items, YES only deleted ones, BOTH either; the deletion fields are shown
      exactly in the YES and BOTH modes, and then they are the stored item's. */
  lemma {:induction false} DeletedModes(k: Kind, store: seq<Item>, q: ListQuery)
    requires q.limit > 0 || q.limit == -1
    requires List(k, store, q).Resolves?
    ensures var r := List(k, store, q).value.results;
      forall j :: 0 <= j < |r| ==> DeletionOf(store, q.deleted, r[j])
  {
    ListedAreStored(k, store, q);
    DeletionShownFromStore(store, q, List(k, store, q).value.results);
  }

  // ---------------------------------------------------------------- by id

  /** The roles that may see deleted items by id, as written: a role name built from the
      kind, which no caller ever holds. */
  function PrivilegedById(k: Kind): seq<string>
  {
    ["Super" + Noun(k), "Developer" + Noun(k)]
  }

  /** The roles that are evidently meant: the administrators that may list deleted items. */
  function PrivilegedByIdIntended(k: Kind): seq<string>
  {
    ["SuperAdmin", "DeveloperAdmin"]
  }

  function FindVisible(store: seq<Item>, id: string, privileged: bool): (r: Option<nat>)
    ensures r.Some? ==> r.value < |store| && store[r.value].id == id && (privileged || !store[r.value].isDeleted)
    ensures r.None? ==> forall j :: 0 <= j < |store| ==> !(store[j].id == id && (privileged || !store[j].isDeleted))
  {
    FindFirstItem(store, (it: Item) => it.id == id && (privileged || !it.isDeleted))
  }

  function RoleOrEmpty(role: Option<string>): string
  {
    if role.Some? then role.value else ""
  }

  /** `getCategoryById` and its siblings, given the privileged role names. */
  function GetByIdWith(privilegedRoles: seq<string>, k: Kind, store: seq<Item>, id: Option<string>,
                       role: Option<string>): (o: Settle<Listed>)
    ensures !o.NeverSettles?
    ensures !ValidId(id) ==> o.Rejects? && o.failure.statusCode == Some(BadRequest)
    ensures o.Resolves? <==>
      ValidId(id) && FindVisible(store, id.value, RoleOrEmpty(role) in privilegedRoles).Some?
    ensures o.Resolves? ==>
      (o.value.id == id.value
       && (o.value.deletion.Some? <==> RoleOrEmpty(role) in privilegedRoles)
       && (RoleOrEmpty(role) !in privilegedRoles ==>
             exists j :: 0 <= j < |store| && store[j].id == id.value && !store[j].isDeleted))
  {
    if !ValidId(id) then
      Rejects(Failure(if !Given(id) then "Provide " + Lower(k) + "Id" else Lower(k) + "Id not Valid", Some(BadRequest), NoCode))
    else
      var privileged := RoleOrEmpty(role) in privilegedRoles;
      match FindVisible(store, id.value, privileged)
      case None => Rejects(Failure(Noun(k) + " not found", Some(NotFound), NoCode))
      case Some(i) => Resolves(View(store[i], if privileged then Types.BOTH else Types.NO))
  }

  function GetById(k: Kind, store: seq<Item>, id: Option<string>, role: Option<string>): (o: Settle<Listed>)
    ensures o.Resolves? ==> (o.value.deletion.Some? <==> RoleOrEmpty(role) in PrivilegedById(k))
  {
    GetByIdWith(PrivilegedById(k), k, store, id, role)
  }

  /** No role name is privileged as written, so a deleted item is never found by id,
      whoever asks. */
  lemma {:induction false} DeletedItemsHiddenById(k: Kind, store: seq<Item>, id: string, role: Option<Types.Role>)
    requires forall j :: 0 <= j < |store| && store[j].id == id ==> store[j].isDeleted
    ensures GetById(k, store, Some(id), if role.Some? then Some(Types.RoleName(role.value)) else None).Rejects?
  {
    var r := RoleOrEmpty(if role.Some? then Some(Types.RoleName(role.value)) else None);
    assert r !in PrivilegedById(k) by {
      if role.Some? {
        assert Types.IsRoleName(r) by { Types.RoleNamesAreRoleNames(role.value); }
        assert !Types.IsRoleName("Super" + Noun(k)) && !Types.IsRoleName("Developer" + Noun(k));
      }
    }
  }

  /** With the administrator roles privileged, a SuperAdmin finds a deleted item and sees
      its deletion fields. */
  lemma {:induction false} DeletedItemsVisibleToSuperAdmin(k: Kind, store: seq<Item>, id: string, j: nat)
    requires Types.ValidObjectId(id) && id != ""
    requires j < |store| && store[j].id == id
    ensures var o := GetByIdWith(PrivilegedByIdIntended(k), k, store, Some(id), Some("SuperAdmin"));
      o.Resolves? && o.value.deletion.Some?
  {
    var it := store[j];
    assert it.id == id && (true || !it.isDeleted);
  }

  // ---------------------------------------------------------------- add / edit

  function FindByName(store: seq<Item>, name: string): (r: Option<nat>)
    ensures r.Some? ==> r.value < |store| && store[r.value].name == name
    ensures r.None? ==> forall j :: 0 <= j < |store| ==> store[j].name != name
  {
    FindFirstItem(store, (it: Item) => it.name == name)
  }

  /** The duplicate-key error of the unique index on `code`. */
  const DuplicateCode := Failure("E11000 duplicate key error collection", None, Num(11000))

  predicate HasCode(store: seq<Item>, c: string)
  {
    exists j :: 0 <= j < |store| && store[j].code == Some(c)
  }

  /** The code the save hook gives a new item, if the kind has one. */
  function NewCode(k: Kind, store: seq<Item>): (r: Settle<Option<string>>)
    ensures Prefix(k).None? ==> r == Resolves(None)
    ensures Prefix(k).Some? && |store| == 0 ==> r == Resolves(Some(Prefix(k).value + "100"))
    ensures r.Rejects? ==> r.failure == CodeGen.MissingCode
    ensures !r.NeverSettles?
  {
    match Prefix(k)
    case None => Resolves(None)
    case Some(prefix) =>
      var newest: Option<Option<string>> := if |store| == 0 then None else Some(store[|store| - 1].code);
      var r := CodeGen.NextCode(prefix, newest);
      if r.Resolves? then Resolves(Some(r.value)) else Rejects(r.failure)
  }

  /** `addCategory` and its siblings: a non-empty name no item has yet. `id` and `now` are
      the new document's id and creation time. */
  function Add(k: Kind, store: seq<Item>, name: Option<string>, id: string, now: int): (o: Outcome<Reply>)
    ensures !Given(name) ==>
      o == Outcome(store, Rejects(Failure("Please provide valid name, name, phone and email.", Some(BadRequest), NoCode)))
    ensures Given(name) && FindByName(store, name.value).Some? ==>
      o == Outcome(store, Rejects(Failure("Name already exist", None, NoCode)))
    ensures o.result.Resolves? <==>
      Given(name) && FindByName(store, name.value).None? && NewCode(k, store).Resolves?
      && (NewCode(k, store).value.Some? ==> !HasCode(store, NewCode(k, store).value.value))
    ensures o.result.Resolves? ==>
      o.store == store + [Item(id, NewCode(k, store).value, name.value, Active, false, None, now)]
      && o.result.value.message == name.value + "'s account created successfully"
    ensures !o.result.Resolves? ==> o.store == store
    ensures Given(name) && FindByName(store, name.value).None? && NewCode(k, store).Rejects? ==>
      o.result == Rejects(Failure(CodeGen.MissingCode.message, Some(InternalServer), Named(CodeGen.MissingCodeName)))
  {
    var fallback := Noun(k) + " creation failed";
    if !Given(name) then
      Outcome(store, Rejects(Failure("Please provide valid name, name, phone and email.", Some(BadRequest), NoCode)))
    else if FindByName(store, name.value).Some? then
      Outcome(store, Rejects(Failure("Name already exist", None, NoCode)))
    else
      var code := NewCode(k, store);
      if code.Rejects? then FailNamed(store, code.failure, CodeGen.MissingCodeName, fallback)
      else if code.value.Some? && HasCode(store, code.value.value) then
        FailNamed(store, DuplicateCode, DatabaseErrorName, fallback)
      else
        var it := Item(id, code.value, name.value, Active, false, None, now);
        Outcome(store + [it], Resolves(Reply(name.value + "'s account created successfully", Some(it))))
  }

  /** `editCategory` and its siblings: a given name must differ from the current one and
      be free; an empty name keeps the current one. The lookup ignores deletion. */
  function Edit(k: Kind, store: seq<Item>, id: Option<string>, name: Option<string>): (o: Outcome<Reply>)
    ensures o.result.Resolves? <==>
      ValidId(id) && FindById(store, id.value).Some?
      && !(Given(name) && store[FindById(store, id.value).value].name != name.value && FindByName(store, name.value).Some?)
    ensures o.result.Resolves? ==> var i := FindById(store, id.value).value;
      o.store == Put(store, store[i].(name := if Given(name) then name.value else store[i].name))
    ensures !o.result.Resolves? ==> o.store == store && o.result.Rejects?
  {
    var fallback := Noun(k) + " editing failed";
    if !ValidId(id) then Fail(store, Raise("Provide vaild " + Lower(k) + " id", BadRequest), fallback)
    else match FindById(store, id.value)
      case None => Fail(store, Raise(Noun(k) + " not found", NotFound), fallback)
      case Some(i) =>
        var it := store[i];
        if Given(name) && it.name != name.value && FindByName(store, name.value).Some? then
          Fail(store, Raise("Email already exist for other " + Lower(k), BadRequest), fallback)
        else
          var edited := it.(name := if Given(name) then name.value else it.name);
          Outcome(Put(store, edited), Resolves(Reply(Noun(k) + " edited successfully", Some(edited))))
  }

  /** Adding keeps names unique. */
  lemma {:induction false} AddKeepsNamesUnique(k: Kind, store: seq<Item>, name: Option<string>, id: string, now: int)
    requires UniqueNames(store)
    ensures UniqueNames(Add(k, store, name, id, now).store)
  {
    var o := Add(k, store, name, id, now);
    if o.result.Resolves? {
      forall a, b | 0 <= a < b < |o.store| ensures o.store[a].name != o.store[b].name {
        if b == |store| {
          assert o.store[a] == store[a];
        } else {
          assert o.store[a] == store[a] && o.store[b] == store[b];
        }
      }
    }
  }

  /** Editing keeps names unique when ids are unique. */
  lemma {:induction false} EditKeepsNamesUnique(k: Kind, store: seq<Item>, id: Option<string>, name: Option<string>)
    requires UniqueNames(store) && UniqueIds(store)
    ensures UniqueNames(Edit(k, store, id, name).store)
  {
    var o := Edit(k, store, id, name);
    if o.result.Resolves? {
      var i := FindById(store, id.value).value;
      var n := if Given(name) then name.value else store[i].name;
      forall j | 0 <= j < |store| && j != i ensures store[j].name != n && o.store[j] == store[j] {
        if j < i { assert store[j].id != store[i].id; } else { assert store[i].id != store[j].id; }
        if n != store[i].name {
          assert FindByName(store, n).None?;
        } else if j < i {
          assert store[j].name != store[i].name;
        } else {
          assert store[i].name != store[j].name;
        }
      }
      assert o.store[i].name == n;
      forall a, b | 0 <= a < b < |o.store| ensures o.store[a].name != o.store[b].name {
        if a != i && b != i {
          assert o.store[a] == store[a] && o.store[b] == store[b];
        }
      }
    }
  }

  /** Once the newest artist's code carries no number, the next artist is coded `SPLENaN`;
      saving one more then hits the unique index, whatever its name. */
  lemma {:induction false} NaNCodesCollide(store: seq<Item>, name: string, id: string, now: int)
    requires |store| > 0 && store[|store| - 1].code == Some(CodeGen.ArtistPrefix + "NaN")
    requires name != "" && FindByName(store, name).None?
    ensures Add(Artist, store, Some(name), id, now).result.Rejects?
    ensures Add(Artist, store, Some(name), id, now).result.failure.code == Num(11000)
  {
    CodeGen.NaNIsSticky(CodeGen.ArtistPrefix);
    assert NewCode(Artist, store) == Resolves(Some(CodeGen.ArtistPrefix + "NaN"));
    assert HasCode(store, CodeGen.ArtistPrefix + "NaN");
  }

  // ---------------------------------------------------------------- status / lifecycle

  function FindById(store: seq<Item>, id: string): (r: Option<nat>)
    ensures r.Some? ==> r.value < |store| && store[r.value].id == id
    ensures r.None? ==> forall j :: 0 <= j < |store| ==> store[j].id != id
  {
    FindFirstItem(store, (it: Item) => it.id == id)
  }

  function Flip(s: Status): (r: Status)
    ensures r != s
  {
    if s == Active then Inactive else Active
  }

  /** `changeCategoryStatus` and its siblings: Active and Inactive swap, deleted or not. */
  function Toggle(k: Kind, store: seq<Item>, id: Option<string>): (o: Outcome<Reply>)
    ensures o.result.Resolves? <==> ValidId(id) && FindById(store, id.value).Some?
    ensures o.result.Resolves? ==> var i := FindById(store, id.value).value;
      o.store == Put(store, store[i].(status := Flip(store[i].status)))
      && o.result.value.message == store[i].name + " status changed to " + StatusName(Flip(store[i].status))
    ensures !o.result.Resolves? ==> o.store == store
  {
    var fallback := "Status changing failed";
    if !ValidId(id) then Fail(store, Raise("Provide vaild " + Lower(k) + " id and status", BadRequest), fallback)
    else match FindById(store, id.value)
      case None => Fail(store, Raise(Noun(k) + " not found", NotFound), fallback)
      case Some(i) =>
        var it := store[i].(status := Flip(store[i].status));
        Outcome(Put(store, it), Resolves(Reply(it.name + " status changed to " + StatusName(it.status), Some(it))))
  }

  lemma {:induction false} PutItemAt(store: seq<Item>, i: nat, it: Item)
    requires UniqueIds(store) && i < |store| && it.id == store[i].id
    ensures forall j :: 0 <= j < |store| ==> Put(store, it)[j] == (if j == i then it else store[j])
    ensures UniqueIds(Put(store, it))
    ensures FindById(Put(store, it), it.id) == Some(i)
  {
    forall j | 0 <= j < |store| && j != i ensures store[j].id != it.id {
      if j < i { assert store[j].id != store[i].id; } else { assert store[i].id != store[j].id; }
    }
    var r := Put(store, it);
    forall j | 0 <= j < i ensures r[j].id != it.id {
      assert r[j] == store[j];
    }
  }

  /** Toggling twice gives the collection back. */
  lemma {:induction false} ToggleTwice(k: Kind, store: seq<Item>, id: string)
    requires UniqueIds(store) && Types.ValidObjectId(id) && id != ""
    ensures Toggle(k, Toggle(k, store, Some(id)).store, Some(id)).store == store
  {
    var o := Toggle(k, store, Some(id));
    if o.result.Resolves? {
      var i := FindById(store, id).value;
      var once := store[i].(status := Flip(store[i].status));
      PutItemAt(store, i, once);
      var twice := once.(status := Flip(once.status));
      assert twice == store[i];
      PutItemAt(o.store, i, twice);
      assert Toggle(k, o.store, Some(id)).store == Put(o.store, twice);
    }
  }

  function FindLive(store: seq<Item>, id: string): (r: Option<nat>)
    ensures r.Some? ==> r.value < |store| && store[r.value].id == id && !store[r.value].isDeleted
    ensures r.None? ==> forall j :: 0 <= j < |store| ==> !(store[j].id == id && !store[j].isDeleted)
  {
    FindFirstItem(store, (it: Item) => it.id == id && !it.isDeleted)
  }

  function FindDeleted(store: seq<Item>, id: string): (r: Option<nat>)
    ensures r.Some? ==> r.value < |store| && store[r.value].id == id && store[r.value].isDeleted
    ensures r.None? ==> forall j :: 0 <= j < |store| ==> !(store[j].id == id && store[j].isDeleted)
  {
    FindFirstItem(store, (it: Item) => it.id == id && it.isDeleted)
  }

  /** `deleteCategory` and its siblings: only a live item; it becomes Inactive and deleted. */
  function Delete(k: Kind, store: seq<Item>, id: Option<string>, now: int): (o: Outcome<Reply>)
    ensures o.result.Resolves? <==> ValidId(id) && FindLive(store, id.value).Some?
    ensures o.result.Resolves? ==> var i := FindLive(store, id.value).value;
      o.store == Put(store, store[i].(status := Inactive, isDeleted := true, deletedAt := Some(now)))
    ensures !o.result.Resolves? ==> o.store == store && o.result.Rejects?
  {
    var fallback := Noun(k) + " deleting failed";
    if !ValidId(id) then Fail(store, Raise("Provide valid " + Lower(k) + " id", BadRequest), fallback)
    else match FindLive(store, id.value)
      case None => Fail(store, Raise(Noun(k) + " Not Found", NotFound), fallback)
      case Some(i) =>
        Outcome(Put(store, store[i].(status := Inactive, isDeleted := true, deletedAt := Some(now))),
                Resolves(Reply(store[i].name + " " + Lower(k) + " was deleted", None)))
  }

  /** `restoreCategory` and its siblings: only a deleted item; it becomes Active and live. */
  function Restore(k: Kind, store: seq<Item>, id: Option<string>): (o: Outcome<Reply>)
    ensures o.result.Resolves? <==> ValidId(id) && FindDeleted(store, id.value).Some?
    ensures o.result.Resolves? ==> var i := FindDeleted(store, id.value).value;
      o.store == Put(store, store[i].(status := Active, isDeleted := false, deletedAt := None))
    ensures !o.result.Resolves? ==> o.store == store && o.result.Rejects?
  {
    var fallback := Noun(k) + " restore failed";
    if !ValidId(id) then Fail(store, Raise("Provide valid " + Lower(k) + " id", BadRequest), fallback)
    else match FindDeleted(store, id.value)
      case None => Fail(store, Raise(Noun(k) + " not found", NotFound), fallback)
      case Some(i) =>
        var it := store[i].(status := Active, isDeleted := false, deletedAt := None);
        Outcome(Put(store, it), Resolves(Reply(it.name + " " + Lower(k) + " was restored", Some(it))))
  }

  /** `pDeleteCategory` and its siblings: a deleted item, and only in development. */
  function PermanentDelete(k: Kind, store: seq<Item>, id: Option<string>, env: string): (o: Outcome<Reply>)
    ensures o.result.Resolves? <==> ValidId(id) && FindDeleted(store, id.value).Some? && env == "development"
    ensures o.result.Resolves? ==> var i := FindDeleted(store, id.value).value;
      o.store == store[..i] + store[i + 1..]
    ensures ValidId(id) && FindDeleted(store, id.value).Some? && env != "development" ==>
      o == Outcome(store, Rejects(Raise("In " + env + " mode not able to delete permanently!!", Forbidden)))
    ensures !o.result.Resolves? ==> o.store == store
  {
    var fallback := Noun(k) + " permanently deleting failed";
    if !ValidId(id) then Fail(store, Raise("Provide valid " + Lower(k) + " id", BadRequest), fallback)
    else match FindDeleted(store, id.value)
      case None => Fail(store, Raise(Noun(k) + " not found", NotFound), fallback)
      case Some(i) =>
        if env != "development" then Fail(store, Raise("In " + env + " mode not able to delete permanently!!", Forbidden), fallback)
        else Outcome(store[..i] + store[i + 1..], Resolves(Reply(store[i].name + " " + Lower(k) + " was deleted permanently", None)))
  }

  /** Deleting and then restoring an Active item gives the collection back, except for
      the item's cleared deletion time; a live item cannot be removed permanently. */
  lemma {:induction false} DeleteThenRestore(k: Kind, store: seq<Item>, id: string, now: int, env: string)
    requires UniqueIds(store) && Types.ValidObjectId(id) && id != ""
    requires FindLive(store, id).Some? && store[FindLive(store, id).value].status == Active
    ensures PermanentDelete(k, store, Some(id), env).result.Rejects?
    ensures var i := FindLive(store, id).value;
      var d := Delete(k, store, Some(id), now);
      Restore(k, d.store, Some(id)).store == Put(store, store[i].(deletedAt := None))
  {
    var i := FindLive(store, id).value;
    forall j | 0 <= j < |store| && j != i ensures store[j].id != id {
      if j < i { assert store[j].id != store[i].id; } else { assert store[i].id != store[j].id; }
    }
    assert FindDeleted(store, id).None?;
    var gone := store[i].(status := Inactive, isDeleted := true, deletedAt := Some(now));
    DeleteMarks(k, store, id, now);
    var d := Delete(k, store, Some(id), now);
    var back := gone.(status := Active, isDeleted := false, deletedAt := None);
    assert back == store[i].(deletedAt := None);
    PutItemAt(d.store, i, back);
    assert Restore(k, d.store, Some(id)).store == Put(d.store, back);
    forall j | 0 <= j < |store| ensures Put(d.store, back)[j] == Put(store, back)[j] {
    }
  }

  /** Deleting a live item marks it in place, where a lookup of deleted items finds it. */
  lemma {:induction false} DeleteMarks(k: Kind, store: seq<Item>, id: string, now: int)
    requires UniqueIds(store) && Types.ValidObjectId(id) && id != ""
    requires FindLive(store, id).Some?
    ensures var i := FindLive(store, id).value;
      var d := Delete(k, store, Some(id), now);
      d.store == Put(store, store[i].(status := Inactive, isDeleted := true, deletedAt := Some(now)))
      && UniqueIds(d.store) && |d.store| == |store|
      && (forall j :: 0 <= j < |store| ==>
            d.store[j] == if j == i then store[i].(status := Inactive, isDeleted := true, deletedAt := Some(now)) else store[j])
      && FindDeleted(d.store, id) == Some(i)
  {
    var i := FindLive(store, id).value;
    var gone := store[i].(status := Inactive, isDeleted := true, deletedAt := Some(now));
    PutItemAt(store, i, gone);
    var d := Delete(k, store, Some(id), now);
    assert FindDeleted(d.store, id) == Some(i) by {
      forall j | 0 <= j < i ensures !(d.store[j].id == id && d.store[j].isDeleted) {
        assert d.store[j] == store[j];
      }
    }
  }
}
