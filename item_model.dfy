/** The inventory record (backend/src/models/Item.js) and what the schema
    does to a record before it is stored: trim the three text fields, then
    require them non-empty and the quantity at least zero. */
module ItemModel {
  import opened Common
  import JsText

  /** Store-assigned identifier of a record. */
  type ItemId = nat
  /** Identifier of the account that owns a record. */
  type UserId = string
  /** A clock reading, as used for the `createdAt` and `updatedAt` stamps. */
  type Time = int

  /** A stored record. The schema itself declares no owner; `owner` is the
      `userId` the item routes attach on create and filter on afterwards. */
  datatype Item = Item(
    id: ItemId,
    owner: UserId,
    itemName: string,
    category: string,
    quantity: int,
    location: string,
    qrCode: Option<string>,
    createdAt: Time,
    updatedAt: Time)

  /** The user-supplied part of a record. */
  datatype Fields = Fields(itemName: string, category: string, quantity: int, location: string)

  /** A required, trimmed string path: non-empty and free of white space at
      either end. */
  predicate RequiredText(s: string)
  {
    s != [] && JsText.IsTrimmed(s)
  }

  /** Fields that pass the schema's validators. */
  predicate ValidFields(f: Fields)
  {
    RequiredText(f.itemName) && RequiredText(f.category) && RequiredText(f.location) && f.quantity >= 0
  }

  /** A record as it may sit in the store. */
  predicate ValidItem(it: Item)
  {
    ValidFields(Fields(it.itemName, it.category, it.quantity, it.location))
  }

  /** Casting and validation on save: the `trim` setters run first, then the
      `required` and `min: 0` validators; a failing validator rejects the save. */
  function Cast(f: Fields): (r: Option<Fields>)
    ensures r.Some? ==> ValidFields(r.value) && r.value.quantity == f.quantity
    ensures r.None? <==>
      JsText.Trim(f.itemName) == [] || JsText.Trim(f.category) == [] ||
      JsText.Trim(f.location) == [] || f.quantity < 0
  {
    var t := Fields(JsText.Trim(f.itemName), JsText.Trim(f.category), f.quantity, JsText.Trim(f.location));
    JsText.TrimSpec(f.itemName);
    JsText.TrimSpec(f.category);
    JsText.TrimSpec(f.location);
    if t.itemName == [] || t.category == [] || t.location == [] || t.quantity < 0 then None else Some(t)
  }

  /** Fields that already pass are stored exactly as given. */
  lemma CastOfValid(f: Fields)
    requires ValidFields(f)
    ensures Cast(f) == Some(f)
  {
    JsText.TrimOfTrimmed(f.itemName);
    JsText.TrimOfTrimmed(f.category);
    JsText.TrimOfTrimmed(f.location);
  }

  /** A stored text field is the typed one less white space at the ends. */
  lemma CastTrims(f: Fields)
    requires Cast(f).Some?
    ensures exists i :: JsText.CutFrom(f.itemName, Cast(f).value.itemName, i)
    ensures exists i :: JsText.CutFrom(f.category, Cast(f).value.category, i)
    ensures exists i :: JsText.CutFrom(f.location, Cast(f).value.location, i)
  {
    JsText.TrimSpec(f.itemName);
    JsText.TrimSpec(f.category);
    JsText.TrimSpec(f.location);
  }

  /** Casting twice is casting once. */
  lemma CastIdempotent(f: Fields)
    requires Cast(f).Some?
    ensures Cast(Cast(f).value) == Cast(f)
  {
    CastOfValid(Cast(f).value);
  }

  /** A freshly saved record: no code yet, both stamps at the save time. */
  function NewRecord(id: ItemId, owner: UserId, f: Fields, now: Time): (it: Item)
    requires ValidFields(f)
    ensures ValidItem(it) && it.qrCode.None? && it.id == id && it.owner == owner
    ensures Fields(it.itemName, it.category, it.quantity, it.location) == f
    ensures it.createdAt == now && it.updatedAt == now
  {
    Item(id, owner, f.itemName, f.category, f.quantity, f.location, None, now, now)
  }
}
