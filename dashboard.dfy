/** The state and event handlers of the dashboard page
    (frontend/src/pages/Dashboard.jsx): the low-stock transition tracker,
    the scanned-item panel with its quantity box, and the page state those
    handlers update in sequence. */
module Dashboard {
  import opened Common
  import opened DashboardLists
  import JsText
  import JsNumber
  import ItemRoutes

  // ---------------------------------------------------------------------
  // Low-stock transitions
  // ---------------------------------------------------------------------

  /** The item went from a known quantity at or above the threshold to one
      below it. */
  predicate Crossed(prev: map<string, int>, it: ItemView)
  {
    it.id in prev && prev[it.id] >= LowStockThreshold && it.quantity < LowStockThreshold
  }

  /** The items that raise a low-stock alert, in list order. */
  function Alerts(prev: map<string, int>, items: seq<ItemView>): (r: seq<ItemView>)
    ensures forall it :: it in r <==> it in items && Crossed(prev, it)
  {
    FilterBy(items, it => Crossed(prev, it))
  }

  /** No later item of `s` has the id of `s[i]`. */
  ghost predicate LastWithId(s: seq<ItemView>, i: int)
    requires 0 <= i < |s|
  {
    forall j :: i < j < |s| ==> s[j].id != s[i].id
  }

  predicate DistinctIds(s: seq<ItemView>)
  {
    forall i, j :: 0 <= i < j < |s| ==> s[i].id != s[j].id
  }

  /** `s[i]` carries the id `k`. */
  ghost predicate IdAt(s: seq<ItemView>, k: string, i: int)
  {
    0 <= i < |s| && s[i].id == k
  }

  /** The object built by assigning `map[item._id] = item.quantity` for each
      item in turn. */
  function QuantityMap(s: seq<ItemView>): map<string, int>
  {
    if s == [] then map[] else QuantityMap(s[..|s| - 1])[s[|s| - 1].id := s[|s| - 1].quantity]
  }

  /** The keys of `QuantityMap(s)` are exactly the ids of `s`, and each holds
      the quantity of the last item with that id. */
  lemma {:induction false} QuantityMapSpec(s: seq<ItemView>)
    ensures forall i :: 0 <= i < |s| ==> s[i].id in QuantityMap(s)
    ensures forall k :: k in QuantityMap(s) ==> exists i :: IdAt(s, k, i)
    ensures forall i :: 0 <= i < |s| && LastWithId(s, i) ==> QuantityMap(s)[s[i].id] == s[i].quantity
  {
    if s != [] {
      var init := s[..|s| - 1];
      var last := s[|s| - 1];
      QuantityMapSpec(init);
      QuantityMapKeys(s, init, last);
      QuantityMapValues(s, init, last);
    }
  }

  lemma QuantityMapKeys(s: seq<ItemView>, init: seq<ItemView>, last: ItemView)
    requires s == init + [last]
    requires forall k :: k in QuantityMap(init) ==> exists i :: IdAt(init, k, i)
    ensures forall k :: k in QuantityMap(s) ==> exists i :: IdAt(s, k, i)
  {
    assert s[..|s| - 1] == init;
    assert QuantityMap(s) == QuantityMap(init)[last.id := last.quantity];
    forall k | k in QuantityMap(s) ensures exists i :: IdAt(s, k, i) {
      if k == last.id {
        assert IdAt(s, k, |s| - 1);
      } else {
        assert k in QuantityMap(init);
        var i :| IdAt(init, k, i);
        assert IdAt(s, k, i);
      }
    }
  }

  lemma QuantityMapValues(s: seq<ItemView>, init: seq<ItemView>, last: ItemView)
    requires s == init + [last]
    requires forall i :: 0 <= i < |init| ==> init[i].id in QuantityMap(init)
    requires forall i :: 0 <= i < |init| && LastWithId(init, i) ==> QuantityMap(init)[init[i].id] == init[i].quantity
    ensures forall i :: 0 <= i < |s| ==> s[i].id in QuantityMap(s)
    ensures forall i :: 0 <= i < |s| && LastWithId(s, i) ==> QuantityMap(s)[s[i].id] == s[i].quantity
  {
    assert s[..|s| - 1] == init;
    forall i | 0 <= i < |s| - 1 ensures s[i].id in QuantityMap(s) && (LastWithId(s, i) ==> QuantityMap(s)[s[i].id] == s[i].quantity) {
      assert s[i] == init[i];
      if LastWithId(s, i) {
        assert s[|s| - 1] == last;
        assert LastWithId(init, i);
      }
    }
  }

  /** With distinct ids (the server's ids are), the new map records every
      listed item's current quantity. */
  lemma QuantityMapRecordsAll(s: seq<ItemView>)
    requires DistinctIds(s)
    ensures forall it :: it in s ==> it.id in QuantityMap(s) && QuantityMap(s)[it.id] == it.quantity
  {
    QuantityMapSpec(s);
    forall it | it in s ensures it.id in QuantityMap(s) && QuantityMap(s)[it.id] == it.quantity {
      var i :| 0 <= i < |s| && s[i] == it;
      assert LastWithId(s, i);
    }
  }

  lemma AlertsAppend(prev: map<string, int>, s: seq<ItemView>, x: ItemView)
    ensures Alerts(prev, s + [x]) == Alerts(prev, s) + (if Crossed(prev, x) then [x] else [])
  {
    FilterByAppend(s, x, it => Crossed(prev, it));
  }

  /** The effect that runs whenever `items` changes: when the list is
      non-empty it collects the alerts against the previous quantities,
      then replaces the previous quantities with the current ones; an
      empty list changes nothing. */
  method TrackLowStock(items: seq<ItemView>, prev: map<string, int>) returns (alerts: seq<ItemView>, next: map<string, int>)
    ensures alerts == Alerts(prev, items)
    ensures next == if items == [] then prev else QuantityMap(items)
  {
    alerts := [];
    next := prev;
    if |items| > 0 {
      alerts := CollectAlerts(items, prev);
      next := RecordQuantities(items);
    }
  }

  /** The first `forEach`: one alert per item that crossed the threshold. */
  method CollectAlerts(items: seq<ItemView>, prev: map<string, int>) returns (alerts: seq<ItemView>)
    ensures alerts == Alerts(prev, items)
  {
    alerts := [];
    var i := 0;
    while i < |items|
      invariant 0 <= i <= |items|
      invariant alerts == Alerts(prev, items[..i])
    {
      var it := items[i];
      AlertsAppend(prev, items[..i], it);
      assert items[..i + 1] == items[..i] + [it];
      if it.id in prev && prev[it.id] >= LowStockThreshold && it.quantity < LowStockThreshold {
        alerts := alerts + [it];
      }
      i := i + 1;
    }
    assert items[..i] == items;
  }

  /** The second `forEach`: the new previous-quantity object. */
  method RecordQuantities(items: seq<ItemView>) returns (quantities: map<string, int>)
    ensures quantities == QuantityMap(items)
  {
    quantities := map[];
    var i := 0;
    while i < |items|
      invariant 0 <= i <= |items|
      invariant quantities == QuantityMap(items[..i])
    {
      assert items[..i + 1][..i] == items[..i];
      quantities := quantities[items[i].id := items[i].quantity];
      i := i + 1;
    }
    assert items[..i] == items;
  }

  /** Reloading the same list raises no alert a second time. */
  lemma NoRepeatAlert(items: seq<ItemView>)
    requires DistinctIds(items)
    ensures Alerts(QuantityMap(items), items) == []
  {
    QuantityMapRecordsAll(items);
    FilterByNone(items, it => Crossed(QuantityMap(items), it));
  }

  /** An item that drops from at or above the threshold to below it between
      two loads of lists with distinct ids alerts on the load that shows the
      drop, and a further load of the same list alerts on nothing. */
  lemma AlertOnceOnDrop(p: seq<ItemView>, c: seq<ItemView>, before: ItemView, after: ItemView)
    requires DistinctIds(p) && DistinctIds(c)
    requires before in p && after in c && before.id == after.id
    requires before.quantity >= LowStockThreshold > after.quantity
    ensures after in Alerts(QuantityMap(p), c)
    ensures Alerts(QuantityMap(c), c) == []
  {
    QuantityMapRecordsAll(p);
    assert Crossed(QuantityMap(p), after);
    NoRepeatAlert(c);
  }

  // ---------------------------------------------------------------------
  // The quantity box
  // ---------------------------------------------------------------------

  predicate AllDigits(s: string)
  {
    forall i :: 0 <= i < |s| ==> JsNumber.IsDecimalDigit(s[i])
  }

  /** `/^-?\d*$/`: an optional minus sign, then decimal digits only. */
  predicate SignedDigits(s: string)
  {
    AllDigits(s) || (s != [] && s[0] == '-' && AllDigits(s[1..]))
  }

  /** `handleQuantityInputChange`: the box takes the typed text when it is
      empty or matches the pattern, and otherwise keeps what it held. */
  function AcceptInput(current: string, typed: string): (r: string)
    ensures r == typed || r == current
    ensures SignedDigits(typed) ==> r == typed
    ensures !SignedDigits(typed) ==> r == current
  {
    if typed == "" || SignedDigits(typed) then typed else current
  }

  /** The box only ever holds text of the accepted shape. */
  lemma AcceptKeepsShape(current: string, typed: string)
    requires SignedDigits(current)
    ensures SignedDigits(AcceptInput(current, typed))
  {
  }

  /** `quantity.toString()`, which fills the box, has the accepted shape. */
  lemma ToStringHasShape(n: int)
    ensures SignedDigits(JsNumber.IntToString(n))
  {
    var m := if n < 0 then -n else n;
    var digits := JsNumber.Render(m, 10, 1);
    assert AllDigits(digits) by {
      forall i | 0 <= i < |digits| ensures JsNumber.IsDecimalDigit(digits[i]) {
        assert JsNumber.IsDigitIn(digits[i], 10);
      }
    }
    if n < 0 {
      assert JsNumber.IntToString(n)[1..] == digits;
    }
  }

  /** Any text of the accepted shape other than "" and "-" reads as a
      number. */
  lemma ShapeParses(s: string)
    requires SignedDigits(s) && s != "" && s != "-"
    ensures JsNumber.ParseInt(s).Some?
  {
    assert !JsText.IsSpace(s[0]);
    assert JsText.TrimStart(s) == s;
    var rest := if s[0] == '-' then s[1..] else s;
    assert rest != [] && JsNumber.IsDecimalDigit(rest[0]);
    assert JsNumber.DigitPrefix(rest) != [];
  }

  /** What leaving the box leads to. */
  datatype BlurAction = Nothing | ResetBox(text: string) | SendDelta(id: string, delta: int)

  /** `handleQuantityInputBlur`: with no scanned item or an empty box
      nothing happens; text that is not a number, or is negative, puts the
      item's quantity back into the box; otherwise the difference from the
      item's quantity is sent, unless it is zero. */
  function OnBlur(scanned: Option<ItemView>, box: string): (a: BlurAction)
    ensures a.Nothing? <==>
      scanned.None? || box == "" ||
      (JsNumber.ParseInt(box).Some? && 0 <= JsNumber.ParseInt(box).value == scanned.value.quantity)
    ensures a.ResetBox? <==>
      scanned.Some? && box != "" &&
      (JsNumber.ParseInt(box).None? || JsNumber.ParseInt(box).value < 0)
    ensures a.ResetBox? ==> a.text == JsNumber.IntToString(scanned.value.quantity)
    ensures a.SendDelta? ==>
      scanned.Some? && a.id == scanned.value.id && a.delta != 0 &&
      JsNumber.ParseInt(box) == Some(scanned.value.quantity + a.delta) &&
      scanned.value.quantity + a.delta >= 0
  {
    if scanned.None? || box == "" then Nothing
    else
      var q := scanned.value.quantity;
      var parsed := JsNumber.ParseInt(box);
      if parsed.None? || parsed.value < 0 then ResetBox(JsNumber.IntToString(q))
      else
        var delta := parsed.value - q;
        if delta == 0 then Nothing else SendDelta(scanned.value.id, delta)
  }

  /** The text a reset puts back has the accepted shape. */
  lemma ResetTextHasShape(scanned: Option<ItemView>, box: string)
    requires OnBlur(scanned, box).ResetBox?
    ensures SignedDigits(OnBlur(scanned, box).text)
  {
    ToStringHasShape(scanned.value.quantity);
  }

  /** After a reset, leaving the box again does nothing: the text put back
      reads as the item's own (never negative) quantity. */
  lemma BlurAfterResetIsQuiet(it: ItemView, box: string)
    requires it.quantity >= 0
    requires OnBlur(Some(it), box).ResetBox?
    ensures OnBlur(Some(it), OnBlur(Some(it), box).text) == Nothing
  {
    JsNumber.ParseIntOfToString(it.quantity);
  }

  /** The delta sent from the box brings the stored quantity to exactly the
      number typed: the server's adjustment accepts it. */
  lemma SentDeltaLandsOnTyped(it: ItemView, box: string)
    requires OnBlur(Some(it), box).SendDelta?
    ensures ItemRoutes.NextQuantity(it.quantity, OnBlur(Some(it), box).delta) == JsNumber.ParseInt(box).value
  {
  }

  /** Typing the item's own quantity back sends nothing. */
  lemma BlurOnOwnQuantity(it: ItemView)
    requires it.quantity >= 0
    ensures OnBlur(Some(it), JsNumber.IntToString(it.quantity)) == Nothing
  {
    JsNumber.ParseIntOfToString(it.quantity);
  }

  // ---------------------------------------------------------------------
  // Loading a scanned item
  // ---------------------------------------------------------------------

  /** `handleScanInputChange`: the id field holds the typed text trimmed. */
  function ScanInput(value: string): (r: string)
    ensures JsText.IsTrimmed(r)
    ensures |r| <= |value|
    ensures exists i :: JsText.CutFrom(value, r, i)
  {
    JsText.TrimSpec(value);
    JsText.Trim(value)
  }

  /** Retyping the same text, or its trimmed form, leaves the field as is. */
  lemma ScanInputStable(value: string)
    ensures ScanInput(ScanInput(value)) == ScanInput(value)
  {
    JsText.TrimIdempotent(value);
  }

  datatype LoadAction = Skip | AlreadyLoaded | Fetch(id: string)

  /** `handleLoadScannedItem` up to its request: an empty id does nothing,
      the id of the item already shown only raises a notice, and any other
      id is fetched. */
  function OnLoad(scannedId: string, scanned: Option<ItemView>): (a: LoadAction)
    ensures a.Skip? <==> scannedId == ""
    ensures a.AlreadyLoaded? <==> scannedId != "" && scanned.Some? && scanned.value.id == scannedId
    ensures a.Fetch? ==> a.id == scannedId != "" && (scanned.None? || scanned.value.id != scannedId)
  {
    if scannedId == "" then Skip
    else if scanned.Some? && scanned.value.id == scannedId then AlreadyLoaded
    else Fetch(scannedId)
  }

  /** Loading twice in a row without a new scan fetches at most once: once
      the fetched item is shown, the same id is already loaded. */
  lemma SecondLoadIsNoFetch(scannedId: string, it: ItemView)
    requires it.id == scannedId
    ensures !OnLoad(scannedId, Some(it)).Fetch?
  {
  }

  // ---------------------------------------------------------------------
  // The page state
  // ---------------------------------------------------------------------

  datatype ToastKind = Info | Warning
  datatype Toast = Toast(message: string, kind: ToastKind)

  const AlreadyLoadedMessage: string := "Item already loaded"
  const InvalidQuantityMessage: string := "Invalid quantity. Please enter a number >= 0"
  const RequestFailedMessage: string := "Request failed"

  function LowStockMessage(it: ItemView): string
  {
    "\U{26A0}\U{FE0F} Low Stock Alert: " + it.itemName + " has " + JsNumber.IntToString(it.quantity) + " items remaining!"
  }

  /** The text `apiRequest` throws for a failed reply. */
  function ErrorText(message: string): (r: string)
    ensures r != ""
    ensures message != "" ==> r == message
  {
    if message == "" then RequestFailedMessage else message
  }

  class DashboardState {
    var items: seq<ItemView>
    var filters: Filters
    var previousQuantities: map<string, int>
    var scannedItemId: string
    var scannedItem: Option<ItemView>
    var quantityInput: string
    var toast: Option<Toast>
    var error: string

    /** The scan field is always trimmed and the quantity box always holds
        text of the accepted shape. */
    ghost predicate Valid()
      reads this
    {
      JsText.IsTrimmed(scannedItemId) && SignedDigits(quantityInput)
    }

    constructor ()
      ensures Valid()
      ensures items == [] && filters == Filters("", "all", "all")
      ensures previousQuantities == map[] && scannedItemId == "" && scannedItem == None
      ensures quantityInput == "" && toast == None && error == ""
    {
      items := [];
      filters := Filters("", "all", "all");
      previousQuantities := map[];
      scannedItemId := "";
      scannedItem := None;
      quantityInput := "";
      toast := None;
      error := "";
    }

    /** The table rows, the location choices and the three figures. */
    function Shown(): (r: seq<ItemView>)
      reads this
      ensures forall it :: it in r <==> it in items && Keep(it, filters)
    {
      FilterItems(items, filters)
    }

    function Figures(): (st: Stats)
      reads this
      ensures st.lowStockItems <= st.totalItems == |Shown()|
    {
      StatsOf(Shown())
    }

    /** A new list arrives (`setItems`), and the tracking effect runs:
        alerts go to the notice area, the last one shown, and the previous
        quantities become the current ones. */
    method ItemsLoaded(newItems: seq<ItemView>) returns (alerts: seq<ItemView>)
      requires Valid()
      modifies this
      ensures Valid()
      ensures items == newItems
      ensures alerts == Alerts(old(previousQuantities), newItems)
      ensures previousQuantities == if newItems == [] then old(previousQuantities) else QuantityMap(newItems)
      ensures toast == if alerts == [] then old(toast) else Some(Toast(LowStockMessage(alerts[|alerts| - 1]), Warning))
      ensures filters == old(filters) && scannedItemId == old(scannedItemId) && scannedItem == old(scannedItem)
      ensures quantityInput == old(quantityInput) && error == old(error)
    {
      items := newItems;
      var next;
      alerts, next := TrackLowStock(newItems, previousQuantities);
      previousQuantities := next;
      if alerts != [] {
        toast := Some(Toast(LowStockMessage(alerts[|alerts| - 1]), Warning));
      }
    }

    method FiltersChanged(f: Filters)
      requires Valid()
      modifies this
      ensures Valid()
      ensures filters == f
      ensures items == old(items) && previousQuantities == old(previousQuantities)
      ensures scannedItemId == old(scannedItemId) && scannedItem == old(scannedItem)
      ensures quantityInput == old(quantityInput) && toast == old(toast) && error == old(error)
    {
      filters := f;
    }

    method ScanInputChanged(value: string)
      requires Valid()
      modifies this
      ensures Valid()
      ensures scannedItemId == ScanInput(value)
      ensures items == old(items) && filters == old(filters) && previousQuantities == old(previousQuantities)
      ensures scannedItem == old(scannedItem) && quantityInput == old(quantityInput)
      ensures toast == old(toast) && error == old(error)
    {
      scannedItemId := ScanInput(value);
    }

    /** The load button: returns the request it makes, if any. */
    method LoadScannedItem() returns (action: LoadAction)
      requires Valid()
      modifies this
      ensures Valid()
      ensures action == OnLoad(old(scannedItemId), old(scannedItem))
      ensures toast == if action.AlreadyLoaded? then Some(Toast(AlreadyLoadedMessage, Info)) else old(toast)
      ensures error == if action.Fetch? then "" else old(error)
      ensures items == old(items) && filters == old(filters) && previousQuantities == old(previousQuantities)
      ensures scannedItemId == old(scannedItemId) && scannedItem == old(scannedItem)
      ensures quantityInput == old(quantityInput)
    {
      action := OnLoad(scannedItemId, scannedItem);
      if action.AlreadyLoaded? {
        toast := Some(Toast(AlreadyLoadedMessage, Info));
      } else if action.Fetch? {
        error := "";
      }
    }

    /** The reply to the fetch of a scanned id: the item and its quantity
        fill the panel, or the panel is cleared and the error shown. */
    method ScannedItemFetched(reply: Reply<ItemView>)
      requires Valid()
      modifies this
      ensures Valid()
      ensures reply.Ok? ==> scannedItem == Some(reply.body) && quantityInput == JsNumber.IntToString(reply.body.quantity) && error == old(error)
      ensures reply.Fail? ==> scannedItem == None && quantityInput == "" && error == ErrorText(reply.message)
      ensures items == old(items) && filters == old(filters) && previousQuantities == old(previousQuantities)
      ensures scannedItemId == old(scannedItemId) && toast == old(toast)
    {
      match reply
      case Ok(_, it) =>
        ToStringHasShape(it.quantity);
        scannedItem := Some(it);
        quantityInput := JsNumber.IntToString(it.quantity);
      case Fail(_, message) =>
        scannedItem := None;
        quantityInput := "";
        error := ErrorText(message);
    }

    method QuantityInputChanged(typed: string)
      requires Valid()
      modifies this
      ensures Valid()
      ensures quantityInput == AcceptInput(old(quantityInput), typed)
      ensures items == old(items) && filters == old(filters) && previousQuantities == old(previousQuantities)
      ensures scannedItemId == old(scannedItemId) && scannedItem == old(scannedItem)
      ensures toast == old(toast) && error == old(error)
    {
      quantityInput := AcceptInput(quantityInput, typed);
    }

    /** Leaving the quantity box: returns what it leads to; a reset puts the
        item's quantity back and warns. */
    method QuantityInputBlurred() returns (action: BlurAction)
      requires Valid()
      modifies this
      ensures Valid()
      ensures action == OnBlur(old(scannedItem), old(quantityInput))
      ensures quantityInput == if action.ResetBox? then action.text else old(quantityInput)
      ensures toast == if action.ResetBox? then Some(Toast(InvalidQuantityMessage, Warning)) else old(toast)
      ensures error == if action.SendDelta? then "" else old(error)
      ensures items == old(items) && filters == old(filters) && previousQuantities == old(previousQuantities)
      ensures scannedItemId == old(scannedItemId) && scannedItem == old(scannedItem)
    {
      action := OnBlur(scannedItem, quantityInput);
      if action.ResetBox? {
        ResetTextHasShape(scannedItem, quantityInput);
        PutBack(action.text);
      } else if action.SendDelta? {
        AdjustmentStarted();
      }
    }

    /** The reset branch of leaving the box: the text goes back in and the
        warning is shown. */
    method PutBack(text: string)
      requires Valid() && SignedDigits(text)
      modifies this
      ensures Valid()
      ensures quantityInput == text && toast == Some(Toast(InvalidQuantityMessage, Warning))
      ensures items == old(items) && filters == old(filters) && previousQuantities == old(previousQuantities)
      ensures scannedItemId == old(scannedItemId) && scannedItem == old(scannedItem) && error == old(error)
    {
      quantityInput := text;
      toast := Some(Toast(InvalidQuantityMessage, Warning));
    }

    /** The start of an adjustment request (the blur's delta or a +/-
        button): the error banner is cleared before the request goes out. */
    method AdjustmentStarted()
      requires Valid()
      modifies this
      ensures Valid()
      ensures error == ""
      ensures items == old(items) && filters == old(filters) && previousQuantities == old(previousQuantities)
      ensures scannedItemId == old(scannedItemId) && scannedItem == old(scannedItem)
      ensures quantityInput == old(quantityInput) && toast == old(toast)
    {
      error := "";
    }

    /** The start of a reload of the item list: the error banner is cleared
        before the request goes out. */
    method ItemsRequested()
      requires Valid()
      modifies this
      ensures Valid()
      ensures error == ""
      ensures items == old(items) && filters == old(filters) && previousQuantities == old(previousQuantities)
      ensures scannedItemId == old(scannedItemId) && scannedItem == old(scannedItem)
      ensures quantityInput == old(quantityInput) && toast == old(toast)
    {
      error := "";
    }

    /** After an adjustment of item `id` succeeds and the list is reloaded,
        the panel is refreshed when it shows that item. */
    method ScannedItemRefreshed(id: string, updated: ItemView)
      requires Valid()
      modifies this
      ensures Valid()
      ensures old(scannedItem).Some? && old(scannedItem).value.id == id ==>
        scannedItem == Some(updated) && quantityInput == JsNumber.IntToString(updated.quantity)
      ensures !(old(scannedItem).Some? && old(scannedItem).value.id == id) ==>
        scannedItem == old(scannedItem) && quantityInput == old(quantityInput)
      ensures items == old(items) && filters == old(filters) && previousQuantities == old(previousQuantities)
      ensures scannedItemId == old(scannedItemId) && toast == old(toast) && error == old(error)
    {
      if scannedItem.Some? && scannedItem.value.id == id {
        ToStringHasShape(updated.quantity);
        scannedItem := Some(updated);
        quantityInput := JsNumber.IntToString(updated.quantity);
      }
    }

    /** A failed request shows its message. */
    method RequestFailed(message: string)
      requires Valid()
      modifies this
      ensures Valid()
      ensures error == ErrorText(message)
      ensures items == old(items) && filters == old(filters) && previousQuantities == old(previousQuantities)
      ensures scannedItemId == old(scannedItemId) && scannedItem == old(scannedItem)
      ensures quantityInput == old(quantityInput) && toast == old(toast)
    {
      error := ErrorText(message);
    }
  }
}
