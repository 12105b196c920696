/**
 * The payload normaliser of the dashboard (`formatPedido` in src/App.jsx):
 * a raw order record, as the REST snapshot or the push feed delivers it,
 * becomes the record the UI works with.
 *
 * Money is in integer cents and instants in integer milliseconds, so
 * `parseFloat` and `new Date` are not modelled. A field that may be
 * `undefined` is an `Option`; JavaScript's `x || d` is written out with the
 * falsy values it sees (`undefined` and `0` for numbers).
 */
module Pedidos {
  import opened Wrappers

  /**
   * One element of a raw `items` array. A legacy payload whose items are bare
   * name strings gives an item with every field absent, since reading a
   * property off a string yields `undefined`.
   */
  datatype RawItem = RawItem(
    nombre: Option<string>,
    cantidad: Option<int>,
    precioUnitario: Option<int>,
    precio: Option<int>,
    precioTotal: Option<int>)

  /**
   * The raw `items` field: already an array, a JSON string whose parse is
   * `parsed` (None when `JSON.parse` throws or yields no array), or anything
   * else (missing, null, a number), on which `.map` throws.
   */
  datatype RawItems = ItemList(list: seq<RawItem>) | ItemText(parsed: Option<seq<RawItem>>) | NoItems

  /**
   * A raw order record. `total` is what `parseFloat` makes of the field
   * (None for NaN); `horarioInstant` is the instant `new Date(horario)` gives.
   */
  datatype RawPedido = RawPedido(
    id: int,
    nombreCliente: string,
    horario: string,
    horarioInstant: int,
    metodoPago: string,
    items: RawItems,
    detalles: Option<string>,
    total: Option<int>,
    delivery: bool,
    isNew: Option<bool>,
    direccion: Option<string>,
    isDone: Option<bool>,
    createdAt: Option<int>)

  /** A normalised item. `precioTotal` is None where JavaScript computes NaN. */
  datatype Item = Item(nombre: Option<string>, cantidad: int, precioUnitario: Option<int>, precioTotal: Option<int>)

  datatype Kind = Delivery | Pickup

  /** The record the UI holds in its `orders` list. */
  datatype Order = Order(
    id: int,
    customer: string,
    time: string,
    paymentMethod: string,
    items: seq<Item>,
    details: Option<string>,
    total: int,
    kind: Kind,
    isNew: Option<bool>,
    direccion: string,
    isDone: bool,
    createdAt: int)

  /** JavaScript truthiness of an optional number. */
  predicate Truthy(x: Option<int>) {
    x.Some? && x.value != 0
  }

  /** JavaScript truthiness of an optional boolean. */
  predicate IsTrue(b: Option<bool>) {
    b == Some(true)
  }

  /** `x || d` on a number. */
  function OrInt(x: Option<int>, d: int): (r: int)
    ensures Truthy(x) ==> r == x.value
    ensures !Truthy(x) ==> r == d
  {
    if Truthy(x) then x.value else d
  }

  /** The item array `formatPedido` maps over, or None where it throws. */
  function ItemsOf(items: RawItems): (r: Option<seq<RawItem>>)
    ensures r.None? <==> items.NoItems? || items == ItemText(None)
    ensures items.ItemList? ==> r == Some(items.list)
    ensures items.ItemText? ==> r == items.parsed
  {
    match items
    case ItemList(list) => Some(list)
    case ItemText(parsed) => parsed
    case NoItems => None
  }

  /** One item of `formatPedido`: quantity, unit price and line total defaults. */
  function NormalizeItem(it: RawItem): (r: Item)
    ensures r.nombre == it.nombre
    ensures r.cantidad != 0
    ensures r.cantidad == (if Truthy(it.cantidad) then it.cantidad.value else 1)
    ensures it.cantidad.None? || it.cantidad.value >= 0 ==> r.cantidad >= 1
    ensures r.precioUnitario == (if Truthy(it.precioUnitario) then it.precioUnitario else it.precio)
    ensures Truthy(it.precioTotal) ==> r.precioTotal == it.precioTotal
    ensures !Truthy(it.precioTotal) && it.precio.Some? ==> r.precioTotal == Some(it.precio.value * r.cantidad)
    ensures !Truthy(it.precioTotal) && it.precio.None? ==> r.precioTotal.None?
  {
    var cantidad := OrInt(it.cantidad, 1);
    Item(
      it.nombre,
      cantidad,
      if Truthy(it.precioUnitario) then it.precioUnitario else it.precio,
      if Truthy(it.precioTotal) then it.precioTotal
      else if it.precio.Some? then Some(it.precio.value * cantidad)
      else None)
  }

  /** `items.map(...)`: one normalised item per raw item, in the same order. */
  function NormalizeItems(list: seq<RawItem>): (r: seq<Item>)
    ensures |r| == |list|
    ensures forall i :: 0 <= i < |list| ==> r[i] == NormalizeItem(list[i])
  {
    if list == [] then [] else [NormalizeItem(list[0])] + NormalizeItems(list[1..])
  }

  /** Every item quantity of a normalised order is non-zero. */
  ghost predicate Canonical(o: Order) {
    forall i :: 0 <= i < |o.items| ==> o.items[i].cantidad != 0
  }

  /**
   * `formatPedido`: None where it throws (the items cannot be mapped over),
   * otherwise the UI record with every default applied.
   */
  function FormatPedido(p: RawPedido): (r: Option<Order>)
    ensures r.None? <==> ItemsOf(p.items).None?
    ensures r.Some? ==> Canonical(r.value)
    ensures r.Some? ==> r.value.id == p.id && r.value.customer == p.nombreCliente
    ensures r.Some? ==> r.value.time == p.horario && r.value.paymentMethod == p.metodoPago
    ensures r.Some? ==> r.value.details == p.detalles
    ensures r.Some? ==> r.value.items == NormalizeItems(ItemsOf(p.items).value)
    // Corollaries of the clause above and the contract of NormalizeItems, stated for readers:
    ensures r.Some? ==> |r.value.items| == |ItemsOf(p.items).value|
    ensures r.Some? ==> forall i :: 0 <= i < |r.value.items| ==>
      r.value.items[i].nombre == ItemsOf(p.items).value[i].nombre
    ensures r.Some? ==> (r.value.kind == Delivery <==> p.delivery)
    ensures r.Some? ==> (r.value.isDone <==> IsTrue(p.isDone))
    ensures r.Some? ==> r.value.isNew == p.isNew
    ensures r.Some? ==> r.value.direccion == p.direccion.GetOr("")
    ensures r.Some? ==> r.value.total == p.total.GetOr(0)
    ensures r.Some? ==> r.value.createdAt == (if Truthy(p.createdAt) then p.createdAt.value else p.horarioInstant)
  {
    match ItemsOf(p.items)
    case None => None
    case Some(list) =>
      Some(Order(
        p.id,
        p.nombreCliente,
        p.horario,
        p.metodoPago,
        NormalizeItems(list),
        p.detalles,
        OrInt(p.total, 0),
        if p.delivery then Delivery else Pickup,
        p.isNew,
        p.direccion.GetOr(""),
        IsTrue(p.isDone),
        OrInt(p.createdAt, p.horarioInstant)))
  }

  /**
   * `data.map(formatPedido)`: the whole batch fails as soon as one record
   * fails; otherwise one order per record, in the same order.
   */
  function FormatAll(ps: seq<RawPedido>): (r: Option<seq<Order>>)
    ensures r.Some? <==> forall i :: 0 <= i < |ps| ==> FormatPedido(ps[i]).Some?
    ensures r.Some? ==> |r.value| == |ps|
    ensures r.Some? ==> forall i :: 0 <= i < |ps| ==> r.value[i] == FormatPedido(ps[i]).value
  {
    if ps == [] then Some([])
    else match FormatPedido(ps[0])
      case None => None
      case Some(o) =>
        match FormatAll(ps[1..])
        case None => None
        case Some(rest) => Some([o] + rest)
  }
}
