/** `ProductService`: creating and updating a kiosk's products (with the
    per-kiosk name check and the price and duration rules), the name search,
    activation and deactivation, soft deletion, the recently-added listing
    and the check that a product can be ordered. The product finders it uses
    leave soft-deleted products out. */
module ProductService {
  import opened Common
  import opened Tables
  import opened Sorting
  import opened CommerceModel

  // ---------------------------------------------------------------------------
  // Finders
  // ---------------------------------------------------------------------------

  /** `findById`: the product with that id unless it is soft-deleted. */
  function FindById(ps: seq<Product>, id: string): (r: Option<nat>)
    ensures r.Some? ==> r.value < |ps| && ps[r.value].id == id && ps[r.value].deletedAt.None?
    ensures r.None? <==> forall i :: 0 <= i < |ps| ==> ps[i].id != id || ps[i].deletedAt.Some?
  {
    FirstWhere(ps, (p: Product) => p.id == id && p.deletedAt.None?)
  }

  /** `ILike(name)` with the name taken literally: equal up to ASCII case.
      The `%`, `_` and `\` a name may hold are not read as LIKE pattern
      characters here. */
  predicate SameName(a: string, b: string)
  {
    Lower(a) == Lower(b)
  }

  /** `existsByNameForKiosk`: some product of the kiosk that is not
      soft-deleted carries the name, up to case. */
  predicate NameTaken(ps: seq<Product>, kioskUserId: int, name: string)
  {
    exists i :: 0 <= i < |ps| && ps[i].kioskUserId == kioskUserId && ps[i].deletedAt.None? && SameName(ps[i].name, name)
  }

  /** No two products of a kiosk that are not soft-deleted share a name up
      to case: what the name check is there to keep. */
  predicate UniqueNames(ps: seq<Product>)
  {
    forall i, j :: (0 <= i < j < |ps| && ps[i].kioskUserId == ps[j].kioskUserId
      && ps[i].deletedAt.None? && ps[j].deletedAt.None?) ==> !SameName(ps[i].name, ps[j].name)
  }

  /** `parseFloat(price)` is a number greater than 0. */
  predicate ValidPrice(p: Price)
  {
    p.value.Some? && p.value.value > 0.0
  }

  function TrimOption(s: Option<string>): (r: Option<string>)
    ensures r.Some? <==> s.Some?
    ensures r.Some? ==> r.value == Trim(s.value)
  {
    match s
    case None => None
    case Some(v) => Some(Trim(v))
  }

  // ---------------------------------------------------------------------------
  // create
  // ---------------------------------------------------------------------------

  /** The fields a new product is created from. */
  datatype NewProduct = NewProduct(
    kioskUserId: int, name: string, category: string,
    unitMeasure: Option<string>, customUnitMeasure: Option<string>,
    price: Price, durationDays: int, description: Option<string>,
    photos: Option<seq<string>>)

  function DuplicateNameMessage(name: string): string
  {
    "A product with name \"" + name + "\" already exists for this kiosk"
  }

  const InvalidPriceMessage: string := "Price must be a positive number"
  const InvalidDurationMessage: string := "Duration in days must be greater than 0"

  /** The product row `create` stores: the trimmed name and texts, photos
      defaulting to none, active and not deleted. */
  function NewRow(dto: NewProduct, id: string, now: int): (p: Product)
    ensures p.id == id && p.kioskUserId == dto.kioskUserId && p.name == Trim(dto.name)
    ensures p.active && p.deletedAt.None? && p.createdAt == now
    ensures p.price == dto.price && p.durationDays == dto.durationDays
    ensures p.photos == dto.photos.GetOr([])
  {
    Product(id, dto.kioskUserId, Trim(dto.name), dto.category, dto.unitMeasure,
      TrimOption(dto.customUnitMeasure), dto.price, dto.durationDays,
      TrimOption(dto.description), dto.photos.GetOr([]), true, now, None)
  }

  /** `create`: the name check looks for the name as given, but the
      trimmed name is stored. Checks run in order: a duplicate name for the
      kiosk, the price, the duration. The new id comes from the database
      and is new. */
  function Create(st: Store, dto: NewProduct, id: string, now: int): (o: Outcome<Product>)
    requires forall i :: 0 <= i < |st.products| ==> st.products[i].id != id
    ensures o.result.Err? <==>
      NameTaken(st.products, dto.kioskUserId, dto.name) || !ValidPrice(dto.price) || dto.durationDays <= 0
    ensures NameTaken(st.products, dto.kioskUserId, dto.name) ==> o.result == Err(DuplicateNameMessage(dto.name))
    ensures !NameTaken(st.products, dto.kioskUserId, dto.name) && !ValidPrice(dto.price) ==> o.result == Err(InvalidPriceMessage)
    ensures o.result.Err? ==> o.store == st
    ensures o.result.Ok? ==>
      o.store == st.(products := st.products + [o.result.value])
      && o.result.value == NewRow(dto, id, now)
      && FindById(o.store.products, id) == Some(|st.products|)
  {
    if NameTaken(st.products, dto.kioskUserId, dto.name) then Outcome(st, Err(DuplicateNameMessage(dto.name)))
    else if !ValidPrice(dto.price) then Outcome(st, Err(InvalidPriceMessage))
    else if dto.durationDays <= 0 then Outcome(st, Err(InvalidDurationMessage))
    else
      var p := NewRow(dto, id, now);
      var ps := st.products + [p];
      assert FindById(ps, id) == Some(|st.products|) by {
        assert forall i :: 0 <= i < |st.products| ==> ps[i] == st.products[i];
        FirstFound(ps, id, |st.products|);
      }
      Outcome(st.(products := ps), Ok(p))
  }

  /** `create` corrected to make the name check on the name it stores. Checks run in
      order: a duplicate name for the kiosk, the price, the duration. */
  function CreateFixed(st: Store, dto: NewProduct, id: string, now: int): (o: Outcome<Product>)
    requires forall i :: 0 <= i < |st.products| ==> st.products[i].id != id
    ensures o.result.Err? <==>
      NameTaken(st.products, dto.kioskUserId, Trim(dto.name)) || !ValidPrice(dto.price) || dto.durationDays <= 0
    ensures NameTaken(st.products, dto.kioskUserId, Trim(dto.name)) ==> o.result == Err(DuplicateNameMessage(dto.name))
    ensures !NameTaken(st.products, dto.kioskUserId, Trim(dto.name)) && !ValidPrice(dto.price) ==> o.result == Err(InvalidPriceMessage)
    ensures o.result.Err? ==> o.store == st
    ensures o.result.Ok? ==>
      o.store == st.(products := st.products + [o.result.value])
      && o.result.value == NewRow(dto, id, now)
      && FindById(o.store.products, id) == Some(|st.products|)
  {
    if NameTaken(st.products, dto.kioskUserId, Trim(dto.name)) then Outcome(st, Err(DuplicateNameMessage(dto.name)))
    else if !ValidPrice(dto.price) then Outcome(st, Err(InvalidPriceMessage))
    else if dto.durationDays <= 0 then Outcome(st, Err(InvalidDurationMessage))
    else
      var p := NewRow(dto, id, now);
      var ps := st.products + [p];
      assert FindById(ps, id) == Some(|st.products|) by {
        assert forall i :: 0 <= i < |st.products| ==> ps[i] == st.products[i];
        FirstFound(ps, id, |st.products|);
      }
      Outcome(st.(products := ps), Ok(p))
  }

  /** With the check made on the stored name, creating a product keeps the
      kiosk's names unique. */
  lemma CreateFixedKeepsNamesUnique(st: Store, dto: NewProduct, id: string, now: int)
    requires forall i :: 0 <= i < |st.products| ==> st.products[i].id != id
    requires UniqueNames(st.products)
    ensures UniqueNames(CreateFixed(st, dto, id, now).store.products)
  {
    var o := CreateFixed(st, dto, id, now);
    if o.result.Ok? {
      var ps := o.store.products;
      var n := |st.products|;
      forall i, j | 0 <= i < j < |ps| && ps[i].kioskUserId == ps[j].kioskUserId
        && ps[i].deletedAt.None? && ps[j].deletedAt.None?
        ensures !SameName(ps[i].name, ps[j].name)
      {
        if j == n {
          assert ps[i] == st.products[i];
        } else {
          assert ps[i] == st.products[i] && ps[j] == st.products[j];
        }
      }
    }
  }

  /** The check made on the name as given lets a duplicate through: with a
      product named, say, "Pan" in the kiosk, creating "Pan " (the same name
      and a trailing space) stores a second "Pan". */
  lemma CreateAdmitsDuplicate(st: Store, dto: NewProduct, id: string, now: int, p: Product)
    requires st.products == [p]
    requires p.id != id && p.deletedAt.None?
    requires |p.name| > 0 && !IsSpace(p.name[0]) && !IsSpace(p.name[|p.name| - 1])
    requires dto.kioskUserId == p.kioskUserId && dto.name == p.name + " "
    requires ValidPrice(dto.price) && dto.durationDays > 0
    ensures Create(st, dto, id, now).result.Ok?
    ensures !UniqueNames(Create(st, dto, id, now).store.products)
  {
    assert !SameName(p.name, dto.name) by {
      assert |Lower(p.name)| + 1 == |Lower(dto.name)|;
    }
    NotTakenInOneRow(p, dto.kioskUserId, dto.name);
    var o := Create(st, dto, id, now);
    assert o.result.Ok?;
    var q := o.result.value;
    TrimTrailingSpace(p.name);
    assert q.name == p.name && q.kioskUserId == p.kioskUserId && q.deletedAt.None?;
    assert o.store.products == [p, q];
  }

  /** A table of one product holds a name only when that product has it. */
  lemma NotTakenInOneRow(p: Product, kioskUserId: int, name: string)
    requires !SameName(p.name, name)
    ensures !NameTaken([p], kioskUserId, name)
  {
  }

  /** A name with one trailing space trims back to the name. */
  lemma TrimTrailingSpace(a: string)
    requires |a| > 0 && !IsSpace(a[0]) && !IsSpace(a[|a| - 1])
    ensures Trim(a + " ") == a
  {
    var s := a + [' '];
    assert s[0] == a[0] && s[|s| - 1] == ' ';
    assert TrimStart(s) == s;
    assert s[..|s| - 1] == a;
    assert TrimEnd(a) == a;
    assert TrimEnd(s) == TrimEnd(a);
  }

  // ---------------------------------------------------------------------------
  // update
  // ---------------------------------------------------------------------------

  /** The fields an update may supply; `None` is a field left out. */
  datatype ProductUpdate = ProductUpdate(
    kioskUserId: Option<int>, name: Option<string>, category: Option<string>,
    unitMeasure: Option<string>, customUnitMeasure: Option<string>,
    price: Option<Price>, durationDays: Option<int>, description: Option<string>,
    photos: Option<seq<string>>)

  function NotFoundMessage(id: string): string
  {
    "Product with ID " + id + " has not been found"
  }

  const ChangeKioskMessage: string := "Its not possible to change a products kiosk"
  const UpdateDurationMessage: string := "Duration must be greater than 0"

  /** A truthy kiosk id different from the product's. */
  predicate ChangesKiosk(p: Product, dto: ProductUpdate)
  {
    dto.kioskUserId.Some? && dto.kioskUserId.value != 0 && dto.kioskUserId.value != p.kioskUserId
  }

  /** A non-empty name different from the product's. */
  predicate Renames(p: Product, dto: ProductUpdate)
  {
    dto.name.Some? && dto.name.value != "" && dto.name.value != p.name
  }

  /** The product after an update that passed its checks: each supplied field
      replaces the stored one (texts trimmed), the kiosk never changes. */
  function Updated(p: Product, dto: ProductUpdate): (q: Product)
  {
    p.(name := if Renames(p, dto) then Trim(dto.name.value) else p.name,
       price := dto.price.GetOr(p.price),
       durationDays := dto.durationDays.GetOr(p.durationDays),
       category := dto.category.GetOr(p.category),
       unitMeasure := if dto.unitMeasure.Some? then dto.unitMeasure else p.unitMeasure,
       customUnitMeasure := if dto.customUnitMeasure.Some? then TrimOption(dto.customUnitMeasure) else p.customUnitMeasure,
       description := if dto.description.Some? then TrimOption(dto.description) else p.description,
       photos := dto.photos.GetOr(p.photos))
  }

  /** `update`: checks, in order, that the product exists, that the kiosk is
      not being changed, that a new name is free in the kiosk, that a given
      price is valid and that a given duration is positive; then writes the
      supplied fields. */
  function Update(st: Store, id: string, dto: ProductUpdate): (o: Outcome<Product>)
    ensures o.result.Err? ==> o.store == st
    ensures FindById(st.products, id).None? ==> o.result == Err(NotFoundMessage(id))
    ensures o.result.Ok? <==>
      FindById(st.products, id).Some?
      && var p := st.products[FindById(st.products, id).value];
      !ChangesKiosk(p, dto)
      && !(Renames(p, dto) && NameTaken(st.products, p.kioskUserId, dto.name.value))
      && (dto.price.None? || ValidPrice(dto.price.value))
      && (dto.durationDays.None? || dto.durationDays.value > 0)
    ensures o.result.Ok? ==>
      var i := FindById(st.products, id).value;
      o.store == st.(products := st.products[i := o.result.value])
      && o.result.value == Updated(st.products[i], dto)
  {
    match FindById(st.products, id)
    case None => Outcome(st, Err(NotFoundMessage(id)))
    case Some(i) =>
      var p := st.products[i];
      if ChangesKiosk(p, dto) then Outcome(st, Err(ChangeKioskMessage))
      else if Renames(p, dto) && NameTaken(st.products, p.kioskUserId, dto.name.value) then
        Outcome(st, Err(DuplicateNameMessage(dto.name.value)))
      else if dto.price.Some? && !ValidPrice(dto.price.value) then Outcome(st, Err(InvalidPriceMessage))
      else if dto.durationDays.Some? && dto.durationDays.value <= 0 then Outcome(st, Err(UpdateDurationMessage))
      else
        var q := Updated(p, dto);
        Outcome(st.(products := st.products[i := q]), Ok(q))
  }

  /** An update changes only the fields it supplies: an empty update leaves
      the product as it was, and the id, kiosk, activity and creation time
      never change. */
  lemma UpdateKeepsUnsupplied(st: Store, id: string, dto: ProductUpdate)
    requires Update(st, id, dto).result.Ok?
    ensures var p := st.products[FindById(st.products, id).value];
      var q := Update(st, id, dto).result.value;
      q.id == p.id && q.kioskUserId == p.kioskUserId && q.active == p.active
      && q.createdAt == p.createdAt && q.deletedAt == p.deletedAt
      && (dto.name.None? ==> q.name == p.name)
      && (dto.price.None? ==> q.price == p.price)
      && (dto.durationDays.None? ==> q.durationDays == p.durationDays)
      && (dto.photos.None? ==> q.photos == p.photos)
      && (dto == ProductUpdate(None, None, None, None, None, None, None, None, None) ==> q == p)
  {
  }

  // ---------------------------------------------------------------------------
  // search, listings
  // ---------------------------------------------------------------------------

  /** `ORDER BY createdAt DESC`. */
  function Newest(p: Product): real
  {
    -(p.createdAt as real)
  }

  /** Products a search for `query` finds: active, not soft-deleted, with the
      query in the name or the description, up to case. The query is taken
      literally: a `%`, `_` or `\` in it is not a LIKE pattern character. */
  predicate Matches(p: Product, query: string)
  {
    p.active && p.deletedAt.None?
    && (Contains(Lower(p.name), Lower(query))
        || (p.description.Some? && Contains(Lower(p.description.value), Lower(query))))
  }

  const SearchCap: nat := 50

  function SearchAll(ps: seq<Product>, query: string): (r: seq<Product>)
    ensures forall p :: p in r <==> p in ps && Matches(p, query)
    ensures SortedBy(r, Newest)
  {
    var selected := Filter(ps, (p: Product) => Matches(p, query));
    SortBySorted(selected, Newest);
    SortByMembers(selected, Newest);
    SortBy(selected, Newest)
  }

  const ShortQueryMessage: string := "Search query must contain at least 2 characters"

  /** `searchActiveByName`: the trimmed query must have at least two
      characters; the matches come newest first, at most 50 of them, and at
      most `limit` when a positive limit is given. */
  function SearchActiveByName(ps: seq<Product>, query: string, limit: Option<int>): (r: Result<seq<Product>, string>)
    ensures r.Err? <==> |Trim(query)| < 2
    ensures r.Err? ==> r.error == ShortQueryMessage
    ensures r.Ok? ==>
      var all := SearchAll(ps, Trim(query));
      var cap := if |all| < SearchCap then |all| else SearchCap;
      var n := if limit.Some? && 0 < limit.value < cap then limit.value else cap;
      r.value == all[..n]
  {
    if |Trim(query)| < 2 then Err(ShortQueryMessage)
    else Ok(FirstResults(SearchAll(ps, Trim(query)), limit))
  }

  /** `take: 50` and then `slice(0, limit)` for a positive limit. */
  function FirstResults(all: seq<Product>, limit: Option<int>): (r: seq<Product>)
    ensures var cap := if |all| < SearchCap then |all| else SearchCap;
      r == all[..if limit.Some? && 0 < limit.value < cap then limit.value else cap]
  {
    var found := all[..if |all| < SearchCap then |all| else SearchCap];
    if limit.Some? && limit.value > 0 && limit.value < |found| then
      assert found[..limit.value] == all[..limit.value];
      found[..limit.value]
    else found
  }

  /** Every search result matches the trimmed query, the results are newest
      first, and there are at most 50 of them and at most a positive limit. */
  lemma SearchResultsMatch(ps: seq<Product>, query: string, limit: Option<int>)
    requires SearchActiveByName(ps, query, limit).Ok?
    ensures var r := SearchActiveByName(ps, query, limit).value;
      (forall p :: p in r ==> p in ps && Matches(p, Trim(query)))
      && SortedBy(r, Newest)
      && |r| <= SearchCap
      && (limit.Some? && limit.value > 0 ==> |r| <= limit.value)
  {
    var q := Trim(query);
    var all := SearchAll(ps, q);
    var r := SearchActiveByName(ps, query, limit).value;
    assert r == all[..|r|];
    SearchPrefix(ps, q, all, |r|);
  }

  /** A prefix of the search results keeps their matching and their order. */
  lemma SearchPrefix(ps: seq<Product>, q: string, all: seq<Product>, n: nat)
    requires all == SearchAll(ps, q) && n <= |all|
    ensures forall p :: p in all[..n] ==> p in ps && Matches(p, q)
    ensures SortedBy(all[..n], Newest)
  {
    var pre := all[..n];
    forall p | p in pre
      ensures p in all
    {
      var i :| 0 <= i < n && pre[i] == p;
      assert all[i] == p;
    }
    forall i, j | 0 <= i < j < |pre|
      ensures Newest(pre[i]) <= Newest(pre[j])
    {
      assert pre[i] == all[i] && pre[j] == all[j];
    }
  }

  const LimitMessage: string := "Limit its between 1 and 100"

  predicate Listed(p: Product)
  {
    p.active && p.deletedAt.None?
  }

  /** `findRecentlyAdded`: the limit must be within 1 to 100; the newest
      active products, at most `limit` of them. */
  function FindRecentlyAdded(ps: seq<Product>, limit: int): (r: Result<seq<Product>, string>)
    ensures r.Err? <==> limit <= 0 || limit > 100
    ensures r.Ok? ==> |r.value| <= limit && SortedBy(r.value, Newest)
    ensures r.Ok? ==> forall p :: p in r.value ==> p in ps && Listed(p)
    ensures r.Ok? && |r.value| < limit ==> forall p :: p in ps && Listed(p) ==> p in r.value
    ensures r.Ok? ==> forall p, q :: p in ps && Listed(p) && p !in r.value && q in r.value ==> p.createdAt <= q.createdAt
  {
    if limit <= 0 || limit > 100 then Err(LimitMessage)
    else
      var selected := Filter(ps, Listed);
      SortBySorted(selected, Newest);
      SortByMembers(selected, Newest);
      var all := SortBy(selected, Newest);
      var r := if |all| <= limit then all else all[..limit];
      assert forall i :: 0 <= i < |r| ==> r[i] == all[i];
      NewestPrefix(all, |r|);
      Ok(r)
  }

  /** A prefix of a newest-first listing holds its newest products: nothing
      left out of it was created later than anything in it. */
  lemma NewestPrefix(all: seq<Product>, n: nat)
    requires SortedBy(all, Newest) && n <= |all|
    ensures forall p, q :: p in all && p !in all[..n] && q in all[..n] ==> p.createdAt <= q.createdAt
  {
    forall p, q | p in all && p !in all[..n] && q in all[..n]
      ensures p.createdAt <= q.createdAt
    {
      var k :| 0 <= k < |all| && all[k] == p;
      var j :| 0 <= j < n && all[..n][j] == q;
      assert Newest(all[j]) <= Newest(all[k]);
    }
  }

  // ---------------------------------------------------------------------------
  // activate, deactivate, remove
  // ---------------------------------------------------------------------------

  function AlreadyInactiveMessage(id: string): string
  {
    "Product with " + id + " its already deactivated"
  }

  function AlreadyActiveMessage(id: string): string
  {
    "Product with " + id + " its already activated"
  }

  /** `deactivate`: fails for a missing or already inactive product,
      otherwise clears `active`. */
  function Deactivate(st: Store, id: string): (o: Outcome<Product>)
    ensures o.result.Ok? <==> FindById(st.products, id).Some? && st.products[FindById(st.products, id).value].active
    ensures o.result.Err? ==> o.store == st
    ensures o.result.Ok? ==>
      var i := FindById(st.products, id).value;
      o.store == st.(products := st.products[i := st.products[i].(active := false)])
      && o.result.value == st.products[i].(active := false)
  {
    match FindById(st.products, id)
    case None => Outcome(st, Err(NotFoundMessage(id)))
    case Some(i) =>
      var p := st.products[i];
      if !p.active then Outcome(st, Err(AlreadyInactiveMessage(id)))
      else
        var q := p.(active := false);
        Outcome(st.(products := st.products[i := q]), Ok(q))
  }

  /** `activate`: fails for a missing or already active product, otherwise
      sets `active`. */
  function Activate(st: Store, id: string): (o: Outcome<Product>)
    ensures o.result.Ok? <==> FindById(st.products, id).Some? && !st.products[FindById(st.products, id).value].active
    ensures o.result.Err? ==> o.store == st
    ensures o.result.Ok? ==>
      var i := FindById(st.products, id).value;
      o.store == st.(products := st.products[i := st.products[i].(active := true)])
      && o.result.value == st.products[i].(active := true)
  {
    match FindById(st.products, id)
    case None => Outcome(st, Err(NotFoundMessage(id)))
    case Some(i) =>
      var p := st.products[i];
      if p.active then Outcome(st, Err(AlreadyActiveMessage(id)))
      else
        var q := p.(active := true);
        Outcome(st.(products := st.products[i := q]), Ok(q))
  }

  /** Deactivating then activating an active product restores the store, and
      neither operation may be repeated: the second call fails. */
  lemma ActivationRoundTrip(st: Store, id: string)
    requires Deactivate(st, id).result.Ok?
    ensures Activate(Deactivate(st, id).store, id).result.Ok?
    ensures Activate(Deactivate(st, id).store, id).store == st
    ensures Deactivate(Deactivate(st, id).store, id).result.Err?
    ensures Activate(Activate(Deactivate(st, id).store, id).store, id).result.Err?
  {
    var i := FindById(st.products, id).value;
    var st1 := Deactivate(st, id).store;
    assert FindById(st1.products, id) == Some(i) by {
      assert forall j :: 0 <= j < |st.products| && j != i ==> st1.products[j] == st.products[j];
      FirstFound(st1.products, id, i);
    }
    assert st1.products[i := st.products[i]] == st.products;
  }

  /** A product that matches at `i`, where nothing before `i` matches, is
      the one `findById` returns. */
  lemma FirstFound(ps: seq<Product>, id: string, i: nat)
    requires i < |ps| && ps[i].id == id && ps[i].deletedAt.None?
    requires forall j :: 0 <= j < i ==> ps[j].id != id || ps[j].deletedAt.Some?
    ensures FindById(ps, id) == Some(i)
  {
    FirstWhereFirst(ps, (p: Product) => p.id == id && p.deletedAt.None?, i);
  }

  /** `remove`: soft-deletes an existing product. */
  function Remove(st: Store, id: string, now: int): (o: Outcome<()>)
    ensures o.result.Ok? <==> FindById(st.products, id).Some?
    ensures o.result.Ok? ==> FindById(o.store.products, id) != FindById(st.products, id)
    ensures o.result.Ok? ==> (|o.store.products| == |st.products|
      && forall j :: 0 <= j < |st.products| && Some(j) != FindById(st.products, id) ==> o.store.products[j] == st.products[j])
    ensures o.result.Ok? ==> var i := FindById(st.products, id).value;
      o.store.products[i] == st.products[i].(deletedAt := Some(now))
    ensures o.result.Err? ==> o.store == st
  {
    match FindById(st.products, id)
    case None => Outcome(st, Err(NotFoundMessage(id)))
    case Some(i) => Outcome(st.(products := st.products[i := st.products[i].(deletedAt := Some(now))]), Ok(()))
  }

  // ---------------------------------------------------------------------------
  // validateProductForOrder
  // ---------------------------------------------------------------------------

  datatype Validation = Validation(isValid: bool, product: Option<Product>, error: Option<string>)

  const ProductNotFound: string := "Product not found"
  const ProductInactive: string := "Product is not active"
  const ProductDeleted: string := "Product has been deleted"

  /** `validateProductForOrder`: never fails; reports a missing product, then
      an inactive one, then a soft-deleted one, else the product itself. */
  function ValidateProductForOrder(ps: seq<Product>, id: string): (v: Validation)
    ensures v.isValid <==> FindById(ps, id).Some? && ps[FindById(ps, id).value].active
    ensures v.isValid ==> v.product == Some(ps[FindById(ps, id).value]) && v.error.None?
    ensures !v.isValid ==> v.product.None? && v.error.Some?
    ensures FindById(ps, id).None? ==> v.error == Some(ProductNotFound)
  {
    match FindById(ps, id)
    case None => Validation(false, None, Some(ProductNotFound))
    case Some(i) =>
      var p := ps[i];
      if !p.active then Validation(false, None, Some(ProductInactive))
      else if p.deletedAt.Some? then Validation(false, None, Some(ProductDeleted))
      else Validation(true, Some(p), None)
  }

  /** The lookup already leaves soft-deleted products out, so the "deleted"
      answer is never given. */
  lemma ValidationNeverReportsDeleted(ps: seq<Product>, id: string)
    ensures ValidateProductForOrder(ps, id).error != Some(ProductDeleted)
  {
  }
}
