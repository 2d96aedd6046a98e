/** The category store: per-owner unique names, owner-scoped listing by name and deletion. */
module Categories {
  import opened Wrappers
  import opened ObjectIds
  import opened Seqs
  import opened Sorting
  import opened Text
  import Json

  datatype CategoryType = Income | Expense

  /** The enum member's string value. */
  function TypeName(t: CategoryType): string {
    match t
    case Income => "income"
    case Expense => "expense"
  }

  /** The schema's `enum: CategoryType` check on a string. */
  function ParseType(s: string): (r: Option<CategoryType>)
    ensures r.Some? ==> TypeName(r.value) == s
    ensures forall t :: TypeName(t) == s ==> r == Some(t)
  {
    if s == "income" then Some(Income) else if s == "expense" then Some(Expense) else None
  }

  const MaxNameLength: nat := 50

  /** A stored category document; `createdAt`/`updatedAt` are the schema's timestamps. */
  datatype Category = Category(
    id: ObjectId, name: string, kind: CategoryType, userId: ObjectId, createdAt: int, updatedAt: int)

  /** The category as the API returns it. */
  datatype CategoryResponse = CategoryResponse(
    id: string, name: string, kind: string, createdAt: int, updatedAt: int)

  datatype CategoryError =
    | ValidationFailed(fields: set<string>)  // Mongoose schema validation, rethrown as is
    | Conflict                               // duplicate key (error code 11000)
    | NotFound(message: string)

  const NotFoundMessage: string := "Category not found"

  /** A stored name: trimmed, non-empty (`required`) and at most `MaxNameLength` characters. */
  predicate ValidName(name: string) {
    IsTrimmed(name) && 0 < |name| <= MaxNameLength
  }

  /** The unique `(userId, name)` index. */
  predicate UniqueNames(store: seq<Category>) {
    forall i, j :: 0 <= i < j < |store| ==>
      store[i].userId != store[j].userId || store[i].name != store[j].name
  }

  /** The `_id` index. */
  predicate UniqueIds(store: seq<Category>) {
    forall i, j :: 0 <= i < j < |store| ==> store[i].id != store[j].id
  }

  /** Every constraint the schema and its indexes put on the collection. */
  predicate WellFormed(store: seq<Category>) {
    && (forall i :: 0 <= i < |store| ==> ValidName(store[i].name))
    && UniqueNames(store)
    && UniqueIds(store)
  }

  predicate NameTaken(store: seq<Category>, userId: ObjectId, name: string) {
    exists i :: 0 <= i < |store| && store[i].userId == userId && store[i].name == name
  }

  predicate IdTaken(store: seq<Category>, id: ObjectId) {
    exists i :: 0 <= i < |store| && store[i].id == id
  }

  /** The paths that fail schema validation once `trim` has been applied to the name. */
  function SchemaErrors(name: string, kind: string): set<string> {
    var n := Trim(name);
    (if n != "" && |n| <= MaxNameLength then {} else {"name"})
    + (if ParseType(kind).Some? then {} else {"type"})
  }

  /** `toDto`: the id as its printed string, the other fields as stored. */
  function ToDto(c: Category): CategoryResponse {
    CategoryResponse(ToString(c.id), c.name, TypeName(c.kind), c.createdAt, c.updatedAt)
  }

  /** The response loses nothing: the id string parses back and the type string names the type. */
  lemma ToDtoPreserves(c: Category)
    ensures FromString(ToDto(c).id) == Some(c.id)
    ensures ToDto(c).name == c.name && ParseType(ToDto(c).kind) == Some(c.kind)
    ensures ToDto(c).createdAt == c.createdAt && ToDto(c).updatedAt == c.updatedAt
  {
    ParseToString(c.id);
  }

  /**
   * `create`: the name is trimmed, then validated, then the unique indexes are checked;
   * a duplicate key becomes Conflict. The stored category is stamped with the caller's id.
   * `newId` and `now` are the generated `_id` and the timestamp.
   */
  function Create(store: seq<Category>, name: string, kind: string, userId: ObjectId, newId: ObjectId, now: int)
    : (r: Result<(seq<Category>, CategoryResponse), CategoryError>)
    ensures SchemaErrors(name, kind) != {} ==> r == Failure(ValidationFailed(SchemaErrors(name, kind)))
    ensures SchemaErrors(name, kind) == {} && NameTaken(store, userId, Trim(name)) ==> r == Failure(Conflict)
    ensures r.Success? <==>
      SchemaErrors(name, kind) == {} && !NameTaken(store, userId, Trim(name)) && !IdTaken(store, newId)
    ensures r.Success? ==> |r.value.0| == |store| + 1 && r.value.0[..|store|] == store
    ensures r.Success? ==>
      var c := r.value.0[|store|];
      && c.id == newId && c.userId == userId && c.name == Trim(name) && TypeName(c.kind) == kind
      && r.value.1 == ToDto(c)
    ensures r.Success? && WellFormed(store) ==> WellFormed(r.value.0)
  {
    var n := Trim(name);
    if SchemaErrors(name, kind) != {} then Failure(ValidationFailed(SchemaErrors(name, kind)))
    else if NameTaken(store, userId, n) || IdTaken(store, newId) then Failure(Conflict)
    else
      assert "type" !in SchemaErrors(name, kind);
      var c := Category(newId, n, ParseType(kind).value, userId, now, now);
      var store' := store + [c];
      assert store'[..|store|] == store;
      assert WellFormed(store) ==> WellFormed(store') by {
        if WellFormed(store) {
          forall i, j | 0 <= i < j < |store'|
            ensures store'[i].userId != store'[j].userId || store'[i].name != store'[j].name
            ensures store'[i].id != store'[j].id
          {
            if j == |store| {
              assert store'[i] == store[i];
            }
          }
        }
      }
      Success((store', ToDto(c)))
  }

  /** Creating a category whose trimmed name the owner already uses adds nothing. */
  lemma DuplicateNameConflicts(store: seq<Category>, i: nat, name: string, kind: string, newId: ObjectId, now: int)
    requires i < |store|
    requires Trim(name) == store[i].name
    requires ParseType(kind).Some?
    requires ValidName(store[i].name)
    ensures Create(store, name, kind, store[i].userId, newId, now) == Failure(Conflict)
  {
    assert NameTaken(store, store[i].userId, Trim(name));
  }

  /** Orders categories by name, ascending. */
  function ByName(): (Category, Category) -> bool {
    (a: Category, b: Category) => LexLe(a.name, b.name)
  }

  lemma ByNameTotalPreorder()
    ensures TotalPreorder(ByName())
  {
    var le := ByName();
    forall a, b ensures le(a, b) || le(b, a) {
      LexLeTotal(a.name, b.name);
    }
    forall a, b, c | le(a, b) && le(b, c) ensures le(a, c) {
      LexLeTransitive(a.name, b.name, c.name);
    }
  }

  /** The caller's categories in store order: the `find({ userId })` before its sort. */
  function Owned(store: seq<Category>, userId: ObjectId): seq<Category> {
    Filter(store, (c: Category) => c.userId == userId)
  }

  /** The caller's categories sorted by name, before the conversion to responses. */
  function OwnedByName(store: seq<Category>, userId: ObjectId): (r: seq<Category>)
    ensures multiset(r) == multiset(Owned(store, userId))
    ensures forall c :: c in r <==> c in store && c.userId == userId
    ensures forall i, j :: 0 <= i < j < |r| ==> LexLe(r[i].name, r[j].name)
  {
    var owned := Owned(store, userId);
    ByNameTotalPreorder();
    var r := SortBy(owned, ByName());
    assert forall c :: c in r <==> c in multiset(owned);
    r
  }

  /** The responses of the caller's categories. */
  function OwnedResponses(store: seq<Category>, userId: ObjectId): set<CategoryResponse> {
    set c | c in store && c.userId == userId :: ToDto(c)
  }

  /**
   * `r` holds, in ascending name order, the responses of the caller's categories and nothing
   * else, each as often as the caller's categories give it.
   */
  ghost predicate ListsOwnedByName(r: seq<CategoryResponse>, store: seq<Category>, userId: ObjectId) {
    && (forall i, j :: 0 <= i < j < |r| ==> LexLe(r[i].name, r[j].name))
    && (forall x :: x in r <==> x in OwnedResponses(store, userId))
    && multiset(r) == multiset(MapSeq(Owned(store, userId), ToDto))
  }

  /** Converting each category to its response keeps the name order, the membership and the multiplicities. */
  lemma {:induction false} ResponsesOf(sorted: seq<Category>, store: seq<Category>, userId: ObjectId, r: seq<CategoryResponse>)
    requires multiset(sorted) == multiset(Owned(store, userId))
    requires forall c :: c in sorted <==> c in store && c.userId == userId
    requires forall i, j :: 0 <= i < j < |sorted| ==> LexLe(sorted[i].name, sorted[j].name)
    requires r == MapSeq(sorted, ToDto)
    ensures ListsOwnedByName(r, store, userId)
  {
    forall x ensures x in r <==> x in OwnedResponses(store, userId) {
      if x in r {
        var i :| 0 <= i < |r| && r[i] == x;
        assert sorted[i] in sorted;
      }
      if x in OwnedResponses(store, userId) {
        var c :| c in store && c.userId == userId && x == ToDto(c);
        var k :| 0 <= k < |sorted| && sorted[k] == c;
        assert r[k] == x;
      }
    }
    forall i, j | 0 <= i < j < |r| ensures LexLe(r[i].name, r[j].name) {
      assert r[i].name == sorted[i].name && r[j].name == sorted[j].name;
    }
    MapSeqPermutation(sorted, Owned(store, userId), ToDto);
  }

  /** `findAll`: the caller's categories, sorted by name ascending, as responses. */
  function FindAll(store: seq<Category>, userId: ObjectId): (r: seq<CategoryResponse>)
    ensures ListsOwnedByName(r, store, userId)
  {
    var sorted := OwnedByName(store, userId);
    var r := MapSeq(sorted, ToDto);
    ResponsesOf(sorted, store, userId, r);
    r
  }

  /** Removing one document keeps every schema constraint and frees that document's id. */
  lemma RemovePreservesWellFormed(store: seq<Category>, i: nat)
    requires i < |store|
    requires WellFormed(store)
    ensures WellFormed(RemoveAt(store, i))
    ensures !IdTaken(RemoveAt(store, i), store[i].id)
  {
    var rest := RemoveAt(store, i);
    forall k | 0 <= k < |rest| ensures ValidName(rest[k].name) && rest[k].id != store[i].id {
      var k' := if k < i then k else k + 1;
      assert rest[k] == store[k'];
    }
    forall j, k | 0 <= j < k < |rest|
      ensures rest[j].userId != rest[k].userId || rest[j].name != rest[k].name
      ensures rest[j].id != rest[k].id
    {
      var j' := if j < i then j else j + 1;
      var k' := if k < i then k else k + 1;
      assert rest[j] == store[j'] && rest[k] == store[k'];
    }
  }

  /** `delete`: removes the category matching both id and owner, or raises NotFound. */
  function Delete(store: seq<Category>, id: ObjectId, userId: ObjectId): (r: Result<seq<Category>, CategoryError>)
    ensures r.Success? <==> exists i :: 0 <= i < |store| && store[i].id == id && store[i].userId == userId
    ensures r.Success? ==>
      exists i :: 0 <= i < |store| && store[i].id == id && store[i].userId == userId
        && multiset(r.value) + multiset{store[i]} == multiset(store)
    ensures r.Success? ==> forall c :: c in store && c.id != id ==> c in r.value
    ensures r.Failure? ==> r.error == NotFound(NotFoundMessage)
    ensures r.Success? && WellFormed(store) ==> WellFormed(r.value) && !IdTaken(r.value, id)
  {
    match FindIndex(store, (c: Category) => c.id == id && c.userId == userId)
    case None => Failure(NotFound(NotFoundMessage))
    case Some(i) =>
      var rest := RemoveAt(store, i);
      assert forall c :: c in store && c.id != id ==> c in rest by {
        forall c | c in store && c.id != id ensures c in rest {
          var k :| 0 <= k < |store| && store[k] == c;
          if k < i { assert rest[k] == c; } else { assert k != i; assert rest[k - 1] == c; }
        }
      }
      assert WellFormed(store) ==> WellFormed(rest) && !IdTaken(rest, id) by {
        if WellFormed(store) {
          RemovePreservesWellFormed(store, i);
        }
      }
      Success(rest)
  }

  /** The document as `toJSON` sees it before the transform: stored fields, `_id`, `__v` and the `id` virtual. */
  function Serialized(c: Category): map<string, Json.Value> {
    map[
      "_id" := Json.Str(ToString(c.id)), "__v" := Json.Num(0), "id" := Json.Str(ToString(c.id)),
      "name" := Json.Str(c.name), "type" := Json.Str(TypeName(c.kind)),
      "userId" := Json.Str(ToString(c.userId)),
      "createdAt" := Json.Num(c.createdAt), "updatedAt" := Json.Num(c.updatedAt)]
  }

  /** The schema's `toJSON` transform: drops `_id`, `__v` and `userId`, and sets `id` to the printed `_id`. */
  function ToJson(c: Category): (r: map<string, Json.Value>)
    ensures "_id" !in r && "__v" !in r && "userId" !in r
    ensures r.Keys == {"id", "name", "type", "createdAt", "updatedAt"}
    ensures r["id"] == Json.Str(ToString(c.id))
    ensures r["name"] == Json.Str(c.name) && r["type"] == Json.Str(TypeName(c.kind))
  {
    var ret := Serialized(c) - {"_id", "__v", "userId"};
    ret["id" := Json.Str(ToString(c.id))]
  }
}
