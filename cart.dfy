/**
 * The shopping cart hook (`useCart.js`): a list of cart items, each a JSON
 * object, persisted under the storage key `boardDesignerCart`. Every update
 * is a pure function from the previous list to the next; the uuid and the
 * clock are parameters, and `JSON.parse` is a parameter that answers
 * `None` where it would throw.
 */
module Cart {
  import opened Js

  type CartItem = JsObject

  /** `JSON.parse` of a stored list: `None` when the text is not valid JSON. */
  type Parser = string -> Option<seq<CartItem>>

  const CartKey := "boardDesignerCart"

  /** `loadCartFromStorage`: the parsed list, or the empty list when nothing is stored or it does not parse. */
  function LoadCart(stored: Option<string>, parse: Parser): (cart: seq<CartItem>)
    ensures !Truthy(stored) ==> cart == []
    ensures Truthy(stored) && parse(stored.value).None? ==> cart == []
    ensures Truthy(stored) && parse(stored.value).Some? ==> cart == parse(stored.value).value
  {
    if Truthy(stored) then
      match parse(stored.value)
      case Some(items) => items
      case None => []
    else []
  }

  /** The item `addToCart` builds: `{ id: uuid, ...design, addedAt }`. */
  function NewItem(design: JsObject, uuid: string, addedAt: string): (item: CartItem)
    ensures Get(item, "addedAt") == Some(JStr(addedAt))
    ensures "id" !in design ==> Get(item, "id") == Some(JStr(uuid))
    ensures forall k :: k in design && k != "addedAt" ==> k in item && item[k] == design[k]
  {
    map["id" := JStr(uuid)] + design + map["addedAt" := JStr(addedAt)]
  }

  /** `prevCart => [...prevCart, cartItem]`. */
  function AddToCart(cart: seq<CartItem>, item: CartItem): seq<CartItem> {
    cart + [item]
  }

  /** `prevCart => prevCart.filter(item => item.id !== itemId)`. */
  function RemoveFromCart(cart: seq<CartItem>, itemId: string): seq<CartItem> {
    Filter(cart, (item: CartItem) => Get(item, "id") != Some(JStr(itemId)))
  }

  /** `clearCart`. */
  function ClearCart(cart: seq<CartItem>): (r: seq<CartItem>)
    ensures |r| == 0
  {
    []
  }

  datatype Summary = Summary(count: nat, items: seq<CartItem>)

  /** `getCartSummary`. */
  function CartSummary(cart: seq<CartItem>): (s: Summary)
    ensures s.count == |s.items| && s.items == cart
  {
    Summary(|cart|, cart)
  }

  /** A `storage` event as the listener sees it. */
  datatype StorageEvent = StorageEvent(key: Option<string>, newValue: Option<string>)

  /**
   * `handleStorageChange`: an event for the cart's key replaces the cart by
   * the new value, or by the empty list when the key was removed or
   * emptied; events for other keys change nothing. A new value that does
   * not parse throws inside the listener, so the cart stays as it was.
   */
  function OnStorage(cart: seq<CartItem>, e: StorageEvent, parse: Parser): seq<CartItem> {
    if e.key == Some(CartKey) then
      if Truthy(e.newValue) then
        match parse(e.newValue.value)
        case Some(items) => items
        case None => cart
      else []
    else cart
  }

  // ---------------------------------------------------------------------------
  // Properties

  /** Adding appends exactly one item after the existing ones, and the count grows by one. */
  lemma AddAppends(cart: seq<CartItem>, item: CartItem)
    ensures var r := AddToCart(cart, item);
            && CartSummary(r).count == CartSummary(cart).count + 1
            && r[..|cart|] == cart && r[|cart|] == item
  {
  }

  /** Removing drops every item with that id and keeps the others in order. */
  lemma RemoveExact(cart: seq<CartItem>, itemId: string)
    ensures var r := RemoveFromCart(cart, itemId);
            && (forall x :: x in r <==> x in cart && Get(x, "id") != Some(JStr(itemId)))
            && (forall x :: multiset(r)[x] == if Get(x, "id") != Some(JStr(itemId)) then multiset(cart)[x] else 0)
            && IsSubsequence(r, cart)
  {
    FilterIsSubsequence(cart, (item: CartItem) => Get(item, "id") != Some(JStr(itemId)));
    FilterCounts(cart, (item: CartItem) => Get(item, "id") != Some(JStr(itemId)));
  }

  /** Removing an id no item carries changes nothing. */
  lemma RemoveAbsent(cart: seq<CartItem>, itemId: string)
    requires forall k :: 0 <= k < |cart| ==> Get(cart[k], "id") != Some(JStr(itemId))
    ensures RemoveFromCart(cart, itemId) == cart
  {
    FilterAll(cart, (item: CartItem) => Get(item, "id") != Some(JStr(itemId)));
  }

  /**
   * Removing the item just added, by the uuid it was given, gives the cart
   * back, as long as the design brought no `id` of its own and the uuid is
   * new to the cart.
   */
  lemma RemoveUndoesAdd(cart: seq<CartItem>, design: JsObject, uuid: string, addedAt: string)
    requires "id" !in design
    requires forall k :: 0 <= k < |cart| ==> Get(cart[k], "id") != Some(JStr(uuid))
    ensures RemoveFromCart(AddToCart(cart, NewItem(design, uuid, addedAt)), uuid) == cart
  {
    var keep := (item: CartItem) => Get(item, "id") != Some(JStr(uuid));
    var item := NewItem(design, uuid, addedAt);
    FilterAppend(cart, [item], keep);
    FilterAll(cart, keep);
    assert Filter([item], keep) == [];
  }

  /** A storage event for the cart's key without a new value empties the cart; other keys leave it alone. */
  lemma StorageEventClears(cart: seq<CartItem>, e: StorageEvent, parse: Parser)
    ensures e.key == Some(CartKey) && !Truthy(e.newValue) ==> OnStorage(cart, e, parse) == []
    ensures e.key != Some(CartKey) ==> OnStorage(cart, e, parse) == cart
  {
  }

  /** A storage event carrying a stored list makes the cart what loading that list would give. */
  lemma StorageEventLoads(cart: seq<CartItem>, e: StorageEvent, parse: Parser)
    requires e.key == Some(CartKey)
    requires !Truthy(e.newValue) || parse(e.newValue.value).Some?
    ensures OnStorage(cart, e, parse) == LoadCart(e.newValue, parse)
  {
  }
}
