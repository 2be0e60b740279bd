/** The item routes (backend/src/routes/itemRoutes.js): create, list, get and
    quantity adjustment over the table of stored records, each scoped to the
    account the bearer-token gate let through. */
module ItemRoutes {
  import opened Common
  import opened ItemModel
  import JsNumber
  import AuthMiddleware

  const AllFieldsRequired: string := "All fields are required."
  const CreateFailed: string := "Server error while creating item."
  const ItemNotFound: string := "Item not found."
  const DeltaRequired: string := "delta (number) is required."
  const NegativeQuantity: string := "Quantity cannot be negative."

  /** The JSON body of a create request; `None` is a missing or null field. */
  datatype NewItemBody = NewItemBody(
    itemName: Option<string>,
    category: Option<string>,
    quantity: Option<int>,
    location: Option<string>)

  /** The route's presence check: the three strings truthy, the quantity
      neither null nor missing (so a quantity of 0 passes). */
  predicate FieldsPresent(b: NewItemBody)
  {
    Truthy(b.itemName) && Truthy(b.category) && b.quantity.Some? && Truthy(b.location)
  }

  function FieldsOf(b: NewItemBody): Fields
    requires FieldsPresent(b)
  {
    Fields(b.itemName.value, b.category.value, b.quantity.value, b.location.value)
  }

  /** Position of record `id` in `s` when `owner` owns it: the query
      `findOne({ _id: id, userId: owner })`. */
  function Find(s: seq<Item>, owner: UserId, id: ItemId): (r: Option<nat>)
    ensures r.Some? ==> r.value < |s| && s[r.value].id == id && s[r.value].owner == owner
    ensures r.None? <==> forall k :: 0 <= k < |s| ==> !(s[k].id == id && s[k].owner == owner)
  {
    if s == [] then None
    else if s[0].id == id && s[0].owner == owner then Some(0)
    else match Find(s[1..], owner, id)
      case None => None
      case Some(k) => Some(k + 1)
  }

  /** The records of `owner`, in store order: the query `find({ userId: owner })`. */
  function Owned(s: seq<Item>, owner: UserId): (r: seq<Item>)
    ensures forall x :: x in r <==> x in s && x.owner == owner
    ensures |r| <= |s|
  {
    if s == [] then []
    else if s[0].owner == owner then [s[0]] + Owned(s[1..], owner)
    else Owned(s[1..], owner)
  }

  /** Ordered by creation stamp, newest first: `sort({ createdAt: -1 })`. */
  predicate NewestFirst(s: seq<Item>)
  {
    forall i, j :: 0 <= i < j < |s| ==> s[i].createdAt >= s[j].createdAt
  }

  /** No record of `s` was created after `t`. */
  predicate NoNewerThan(t: Time, s: seq<Item>)
  {
    forall y :: y in s ==> y.createdAt <= t
  }

  lemma ConsNewestFirst(h: Item, rest: seq<Item>)
    requires NewestFirst(rest) && NoNewerThan(h.createdAt, rest)
    ensures NewestFirst([h] + rest)
  {
    var r := [h] + rest;
    forall i, j | 0 <= i < j < |r| ensures r[i].createdAt >= r[j].createdAt {
      assert r[j] == rest[j - 1];
      if i > 0 {
        assert r[i] == rest[i - 1];
      } else {
        assert rest[j - 1] in rest;
      }
    }
  }

  lemma TailNoNewer(s: seq<Item>)
    requires s != [] && NewestFirst(s)
    ensures NoNewerThan(s[0].createdAt, s[1..])
  {
    forall y | y in s[1..] ensures y.createdAt <= s[0].createdAt {
      var k :| 0 <= k < |s[1..]| && s[1..][k] == y;
      assert s[k + 1] == y;
    }
  }

  /** Insertion of `x` before the first record not newer than it. */
  function InsertByAge(x: Item, s: seq<Item>): (r: seq<Item>)
    ensures multiset(r) == multiset(s) + multiset{x}
  {
    if s == [] || x.createdAt >= s[0].createdAt then [x] + s
    else
      assert s == [s[0]] + s[1..];
      [s[0]] + InsertByAge(x, s[1..])
  }

  /** Insertion keeps a newest-first list newest first. */
  lemma {:induction false} InsertByAgeOrdered(x: Item, s: seq<Item>)
    requires NewestFirst(s)
    ensures NewestFirst(InsertByAge(x, s))
  {
    if s == [] || x.createdAt >= s[0].createdAt {
      TailNoNewer([x] + s);
      ConsNewestFirst(x, s);
    } else {
      var rest := InsertByAge(x, s[1..]);
      assert NewestFirst(s[1..]);
      InsertByAgeOrdered(x, s[1..]);
      TailNoNewer(s);
      assert NoNewerThan(s[0].createdAt, rest) by {
        forall y | y in rest ensures y.createdAt <= s[0].createdAt {
          assert y in multiset(rest);
        }
      }
      ConsNewestFirst(s[0], rest);
    }
  }

  /** `sort({ createdAt: -1 })`, as an insertion sort. */
  function SortNewestFirst(s: seq<Item>): (r: seq<Item>)
    ensures multiset(r) == multiset(s)
  {
    if s == [] then []
    else
      assert s == [s[0]] + s[1..];
      InsertByAge(s[0], SortNewestFirst(s[1..]))
  }

  /** The sort orders newest first. */
  lemma {:induction false} SortNewestFirstOrdered(s: seq<Item>)
    ensures NewestFirst(SortNewestFirst(s))
  {
    if s != [] {
      SortNewestFirstOrdered(s[1..]);
      InsertByAgeOrdered(s[0], SortNewestFirst(s[1..]));
    }
  }

  /** A record after a quantity change of `delta` saved at `now`. A save that
      changes nothing leaves `updatedAt` as it was. */
  function Adjusted(it: Item, delta: int, now: Time): Item
  {
    it.(quantity := it.quantity + delta, updatedAt := if delta == 0 then it.updatedAt else now)
  }

  /** The stored quantity after one adjustment request with a numeric delta:
      a change that would go below zero is refused. */
  function NextQuantity(q: int, delta: int): (r: int)
    ensures q >= 0 ==> r >= 0
    ensures r == q + delta || (r == q && q + delta < 0)
  {
    if q + delta < 0 then q else q + delta
  }

  /** The stored quantity after a series of adjustment requests. */
  function Replay(q: int, deltas: seq<int>): int
    decreases deltas
  {
    if deltas == [] then q else Replay(NextQuantity(q, deltas[0]), deltas[1..])
  }

  function Sum(deltas: seq<int>): int
  {
    if deltas == [] then 0 else deltas[0] + Sum(deltas[1..])
  }

  /** Every running total of `deltas` from `q` stays at or above zero. */
  predicate NeverNegative(q: int, deltas: seq<int>)
  {
    forall n :: 0 <= n <= |deltas| ==> q + Sum(deltas[..n]) >= 0
  }

  /** No series of adjustments drives a quantity below zero. */
  lemma {:induction false} ReplayNonNegative(q: int, deltas: seq<int>)
    requires q >= 0
    ensures Replay(q, deltas) >= 0
    decreases deltas
  {
    if deltas != [] {
      ReplayNonNegative(NextQuantity(q, deltas[0]), deltas[1..]);
    }
  }

  lemma SumPrefix(deltas: seq<int>, n: nat)
    requires 0 < n <= |deltas|
    ensures Sum(deltas[..n]) == deltas[0] + Sum(deltas[1..][..n - 1])
  {
    assert deltas[..n][1..] == deltas[1..][..n - 1];
  }

  /** When no step would go below zero, every adjustment is applied and the
      final quantity is the start plus all the deltas. */
  lemma {:induction false} ReplayAppliesAll(q: int, deltas: seq<int>)
    requires NeverNegative(q, deltas)
    ensures Replay(q, deltas) == q + Sum(deltas)
    decreases deltas
  {
    if deltas != [] {
      SumPrefix(deltas, 1);
      assert deltas[1..][..0] == [];
      assert q + deltas[0] >= 0;
      forall n | 0 <= n <= |deltas[1..]|
        ensures q + deltas[0] + Sum(deltas[1..][..n]) >= 0
      {
        SumPrefix(deltas, n + 1);
      }
      ReplayAppliesAll(q + deltas[0], deltas[1..]);
      assert deltas[..|deltas|] == deltas;
    }
  }

  /** A record's code, once set, is the encoding of its own identifier. */
  predicate CodeMatches(encode: string -> Option<string>, it: Item)
  {
    it.qrCode.None? || encode(JsNumber.IdText(it.id)) == it.qrCode
  }

  /** The table invariant: every record valid, carrying an identifier below
      `nextId` and its own code; identifiers distinct. */
  predicate ValidTable(items: seq<Item>, nextId: ItemId, encode: string -> Option<string>)
  {
    (forall k :: 0 <= k < |items| ==> ValidItem(items[k]) && items[k].id < nextId && CodeMatches(encode, items[k])) &&
    (forall j, k :: 0 <= j < k < |items| ==> items[j].id != items[k].id)
  }

  /** Saving a new record under the next identifier keeps the invariant. */
  lemma AppendKeepsValid(items: seq<Item>, nextId: ItemId, encode: string -> Option<string>, it: Item)
    requires ValidTable(items, nextId, encode)
    requires ValidItem(it) && it.id == nextId && CodeMatches(encode, it)
    ensures ValidTable(items + [it], nextId + 1, encode)
  {
  }

  /** Replacing a record by one with the same identifier keeps the invariant. */
  lemma ReplaceKeepsValid(items: seq<Item>, nextId: ItemId, encode: string -> Option<string>, k: nat, it: Item)
    requires ValidTable(items, nextId, encode) && k < |items|
    requires ValidItem(it) && it.id == items[k].id && CodeMatches(encode, it)
    ensures ValidTable(items[k := it], nextId, encode)
  {
  }

  /** Between `before` and `after`, every record of another account is kept
      in place and every added record belongs to `user`. */
  predicate OthersKept(before: seq<Item>, after: seq<Item>, user: UserId)
  {
    |before| <= |after| &&
    (forall k :: 0 <= k < |before| && before[k].owner != user ==> after[k] == before[k]) &&
    (forall k :: |before| <= k < |after| ==> after[k].owner == user)
  }

  /** An item request as it reaches the router. */
  datatype Request =
    | CreateItem(body: NewItemBody)
    | ListItems
    | GetItem(id: ItemId)
    | AdjustQuantity(id: ItemId, delta: Option<int>)

  /** A JSON reply body: one record or an array of records. */
  datatype Payload = One(item: Item) | Many(items: seq<Item>)

  function AsPayload(r: Reply<Item>): (p: Reply<Payload>)
    ensures p.status == r.status
  {
    match r
    case Ok(status, item) => Ok(status, One(item))
    case Fail(status, message) => Fail(status, message)
  }

  /** The item table. Records are kept in insertion order, which is the
      store's natural order; `nextId` is the next store-assigned identifier;
      `encode` is the code generator (`QRCode.toDataURL`), `None` when it throws. */
  class ItemStore {
    var items: seq<Item>
    var nextId: ItemId
    const encode: string -> Option<string>

    ghost predicate Valid()
      reads this
    {
      ValidTable(items, nextId, encode)
    }

    constructor (encode: string -> Option<string>)
      ensures Valid() && items == [] && nextId == 0 && this.encode == encode
    {
      items := [];
      nextId := 0;
      this.encode := encode;
    }

    /** GET /:id. Another account's record is answered exactly like a
        missing one. */
    function Get(owner: UserId, id: ItemId): (r: Reply<Item>)
      reads this
      ensures r.Ok? <==> exists k :: 0 <= k < |items| && items[k].id == id && items[k].owner == owner
      ensures r.Ok? ==> r.status == 200 && r.body in items && r.body.id == id && r.body.owner == owner
      ensures r.Fail? ==> r == Fail(404, ItemNotFound)
    {
      match Find(items, owner, id)
      case Some(k) => Ok(200, items[k])
      case None => Fail(404, ItemNotFound)
    }

    /** GET /: exactly the caller's records, newest first. */
    function List(owner: UserId): (r: Reply<seq<Item>>)
      reads this
      ensures r.Ok? && r.status == 200
      ensures forall x :: x in r.body <==> x in items && x.owner == owner
      ensures multiset(r.body) == multiset(Owned(items, owner))
      ensures NewestFirst(r.body)
    {
      var s := SortNewestFirst(Owned(items, owner));
      SortNewestFirstOrdered(Owned(items, owner));
      assert forall x :: x in s <==> x in multiset(s);
      Ok(200, s)
    }

    /** POST /. The route checks that the fields are present, the schema
        casts and validates them, and the record is then saved in two steps. */
    method Create(owner: UserId, body: NewItemBody, now: Time) returns (reply: Reply<Item>)
      requires Valid()
      modifies this
      ensures Valid()
      ensures !FieldsPresent(body) ==>
        reply == Fail(400, AllFieldsRequired) && items == old(items) && nextId == old(nextId)
      ensures FieldsPresent(body) && Cast(FieldsOf(body)).None? ==>
        reply == Fail(500, CreateFailed) && items == old(items) && nextId == old(nextId)
      ensures FieldsPresent(body) && Cast(FieldsOf(body)).Some? ==>
        var saved := Stored(old(nextId), owner, Cast(FieldsOf(body)).value, now);
        nextId == old(nextId) + 1 && items == old(items) + [saved] &&
        reply == (if saved.qrCode.Some? then Ok(201, saved) else Fail(500, CreateFailed))
      ensures OthersKept(old(items), items, owner)
    {
      if !FieldsPresent(body) {
        return Fail(400, AllFieldsRequired);
      }
      var fields := Cast(FieldsOf(body));
      if fields.None? {
        return Fail(500, CreateFailed);
      }
      reply := SaveNew(owner, fields.value, now);
    }

    /** The record a successful create leaves in the table: the given fields
        under identifier `id`, with the code of that identifier when the
        encoder produced one. */
    function Stored(id: ItemId, owner: UserId, f: Fields, now: Time): (it: Item)
      requires ValidFields(f)
      ensures ValidItem(it) && CodeMatches(encode, it) && it.id == id && it.owner == owner
      ensures Fields(it.itemName, it.category, it.quantity, it.location) == f
      ensures it.qrCode == encode(JsNumber.IdText(id))
    {
      NewRecord(id, owner, f, now).(qrCode := encode(JsNumber.IdText(id)))
    }

    /** The two saves of a create. The first assigns the identifier; only
        then is that identifier encoded and the code saved onto the record.
        When the encoder fails the first save stands and the reply is 500. */
    method SaveNew(owner: UserId, fields: Fields, now: Time) returns (reply: Reply<Item>)
      requires Valid() && ValidFields(fields)
      modifies this
      ensures Valid()
      ensures var saved := Stored(old(nextId), owner, fields, now);
        nextId == old(nextId) + 1 && items == old(items) + [saved] &&
        reply == (if saved.qrCode.Some? then Ok(201, saved) else Fail(500, CreateFailed))
      ensures OthersKept(old(items), items, owner)
    {
      // First save: the store assigns the identifier.
      var id := nextId;
      var saved := NewRecord(id, owner, fields, now);
      AppendKeepsValid(items, id, encode, saved);
      items, nextId := items + [saved], nextId + 1;
      // Encode the identifier that now exists.
      var code := encode(JsNumber.IdText(id));
      if code.None? {
        return Fail(500, CreateFailed);
      }
      // Second save: attach the code.
      saved := saved.(qrCode := code);
      ReplaceKeepsValid(items, nextId, encode, |items| - 1, saved);
      items := items[|items| - 1 := saved];
      reply := Ok(201, saved);
    }

    /** PATCH /:id/quantity. The only change a record ever sees after its
        creation. */
    method AdjustQuantity(owner: UserId, id: ItemId, delta: Option<int>, now: Time) returns (reply: Reply<Item>)
      requires Valid()
      modifies this
      ensures Valid() && nextId == old(nextId) && |items| == |old(items)|
      ensures OthersKept(old(items), items, owner)
      ensures delta.None? ==> reply == Fail(400, DeltaRequired) && items == old(items)
      ensures delta.Some? && Find(old(items), owner, id).None? ==>
        reply == Fail(404, ItemNotFound) && items == old(items)
      ensures delta.Some? && Find(old(items), owner, id).Some? ==>
        var k := Find(old(items), owner, id).value;
        var it := old(items)[k];
        if it.quantity + delta.value < 0 then
          reply == Fail(400, NegativeQuantity) && items == old(items)
        else
          items == old(items)[k := Adjusted(it, delta.value, now)] && reply == Ok(200, items[k])
      ensures forall k :: 0 <= k < |items| ==>
        (items[k].quantity == old(items)[k].quantity ||
         (delta.Some? && old(items)[k].id == id && old(items)[k].owner == owner &&
          items[k].quantity == NextQuantity(old(items)[k].quantity, delta.value)))
    {
      if delta.None? {
        return Fail(400, DeltaRequired);
      }
      var found := Find(items, owner, id);
      if found.None? {
        return Fail(404, ItemNotFound);
      }
      var k := found.value;
      var newQuantity := items[k].quantity + delta.value;
      if newQuantity < 0 {
        return Fail(400, NegativeQuantity);
      }
      ReplaceKeepsValid(items, nextId, encode, k, Adjusted(items[k], delta.value, now));
      items := items[k := Adjusted(items[k], delta.value, now)];
      reply := Ok(200, items[k]);
    }

    /** The router: every request passes the bearer-token gate first and then
        runs as the account the token names. */
    method Handle(header: Option<string>, verify: string -> AuthMiddleware.Verification, request: Request, now: Time)
      returns (reply: Reply<Payload>)
      requires Valid()
      modifies this
      ensures Valid()
      ensures AuthMiddleware.Gate(header, verify).Reject? ==>
        var gate := AuthMiddleware.Gate(header, verify);
        reply == Fail(gate.status, gate.message) && items == old(items) && nextId == old(nextId)
      ensures AuthMiddleware.Gate(header, verify).Proceed? ==>
        var user := AuthMiddleware.Gate(header, verify).userId;
        OthersKept(old(items), items, user) &&
        (request.ListItems? ==> reply == Ok(200, Many(List(user).body))) &&
        (request.GetItem? ==> reply == AsPayload(Get(user, request.id)))
    ensures AuthMiddleware.Gate(header, verify).Proceed? && (request.ListItems? || request.GetItem?) ==>
      items == old(items) && nextId == old(nextId)
    {
      var gate := AuthMiddleware.Gate(header, verify);
      if gate.Reject? {
        return Fail(gate.status, gate.message);
      }
      var user := gate.userId;
      match request
      case CreateItem(body) =>
        var r := Create(user, body, now);
        reply := AsPayload(r);
      case ListItems =>
        reply := Ok(200, Many(List(user).body));
      case GetItem(id) =>
        reply := AsPayload(Get(user, id));
      case AdjustQuantity(id, delta) =>
        var r := AdjustQuantity(user, id, delta, now);
        reply := AsPayload(r);
    }
  }
}
