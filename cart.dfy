/**
 * The session cart of app.py: a list of `{name, qty, price}` lines that the
 * "Add to Cart" and "Remove" buttons change in place, and the two totals that
 * are recomputed from it after every change.
 */
module Cart {
  import opened Wrappers

  /** The widget that reads the quantity of one add accepts 0..20. */
  const MaxAddQty: nat := 20

  /** One cart entry: a dish name, the quantity ordered and the unit price. */
  datatype CartLine = CartLine(name: string, qty: int, price: int)

  // ---------------------------------------------------------------------
  // Aggregates
  // ---------------------------------------------------------------------

  /** What one line contributes to the total amount. */
  function LineAmount(l: CartLine): int { l.qty * l.price }

  /**
   * `sum(item["qty"] * item["price"] for item in cart)`; never negative when
   * no quantity and no price is.
   */
  function TotalAmount(lines: seq<CartLine>): (r: int)
    ensures (forall i :: 0 <= i < |lines| ==> lines[i].qty >= 0 && lines[i].price >= 0) ==> r >= 0
    decreases |lines|
  {
    if lines == [] then 0 else LineAmount(lines[0]) + TotalAmount(lines[1..])
  }

  /**
   * `sum(item["qty"] for item in cart)`; at least one item per line when
   * every quantity is positive.
   */
  function TotalItems(lines: seq<CartLine>): (r: int)
    ensures (forall i :: 0 <= i < |lines| ==> lines[i].qty > 0) ==> r >= |lines|
    decreases |lines|
  {
    if lines == [] then 0 else lines[0].qty + TotalItems(lines[1..])
  }

  /** The quantity the cart holds of the dish `name`, over all its lines. */
  function QtyOf(lines: seq<CartLine>, name: string): int
    decreases |lines|
  {
    if lines == [] then 0
    else (if lines[0].name == name then lines[0].qty else 0) + QtyOf(lines[1..], name)
  }

  /** The number of lines for the dish `name`. */
  function CountOf(lines: seq<CartLine>, name: string): nat
    decreases |lines|
  {
    if lines == [] then 0
    else (if lines[0].name == name then 1 else 0) + CountOf(lines[1..], name)
  }

  lemma {:induction false} TotalsAppend(a: seq<CartLine>, b: seq<CartLine>)
    ensures TotalAmount(a + b) == TotalAmount(a) + TotalAmount(b)
    ensures TotalItems(a + b) == TotalItems(a) + TotalItems(b)
    decreases |a|
  {
    if a != [] {
      assert (a + b)[1..] == a[1..] + b;
      TotalsAppend(a[1..], b);
    } else {
      assert a + b == b;
    }
  }

  lemma {:induction false} PerDishAppend(a: seq<CartLine>, b: seq<CartLine>, n: string)
    ensures QtyOf(a + b, n) == QtyOf(a, n) + QtyOf(b, n)
    ensures CountOf(a + b, n) == CountOf(a, n) + CountOf(b, n)
    decreases |a|
  {
    if a != [] {
      assert (a + b)[1..] == a[1..] + b;
      PerDishAppend(a[1..], b, n);
    } else {
      assert a + b == b;
    }
  }

  /** Splits the totals of a cart around its line `i`. */
  lemma {:induction false} TotalsAround(lines: seq<CartLine>, i: nat)
    requires i < |lines|
    ensures TotalAmount(lines) == TotalAmount(lines[..i]) + LineAmount(lines[i]) + TotalAmount(lines[i + 1..])
    ensures TotalItems(lines) == TotalItems(lines[..i]) + lines[i].qty + TotalItems(lines[i + 1..])
  {
    assert lines == lines[..i] + ([lines[i]] + lines[i + 1..]);
    TotalsAppend(lines[..i], [lines[i]] + lines[i + 1..]);
    TotalsAppend([lines[i]], lines[i + 1..]);
    assert [lines[i]][1..] == [];
  }

  /** Splits the per-dish sums of a cart around its line `i`. */
  lemma {:induction false} PerDishAround(lines: seq<CartLine>, i: nat, n: string)
    requires i < |lines|
    ensures QtyOf(lines, n) == QtyOf(lines[..i], n) + (if lines[i].name == n then lines[i].qty else 0) + QtyOf(lines[i + 1..], n)
    ensures CountOf(lines, n) == CountOf(lines[..i], n) + (if lines[i].name == n then 1 else 0) + CountOf(lines[i + 1..], n)
  {
    assert lines == lines[..i] + ([lines[i]] + lines[i + 1..]);
    PerDishAppend(lines[..i], [lines[i]] + lines[i + 1..], n);
    PerDishAppend([lines[i]], lines[i + 1..], n);
    assert [lines[i]][1..] == [];
  }

  /** Replacing line `i` changes the totals by the difference of the two lines. */
  lemma {:induction false} TotalsUpdate(lines: seq<CartLine>, i: nat, l: CartLine)
    requires i < |lines|
    ensures TotalAmount(lines[i := l]) == TotalAmount(lines) - LineAmount(lines[i]) + LineAmount(l)
    ensures TotalItems(lines[i := l]) == TotalItems(lines) - lines[i].qty + l.qty
  {
    var r := lines[i := l];
    TotalsAround(lines, i);
    TotalsAround(r, i);
    assert r[..i] == lines[..i] && r[i + 1..] == lines[i + 1..];
  }

  // ---------------------------------------------------------------------
  // The cart invariant
  // ---------------------------------------------------------------------

  /** No dish appears on two lines. */
  ghost predicate NamesDistinct(lines: seq<CartLine>)
  {
    forall i, j :: 0 <= i < j < |lines| ==> lines[i].name != lines[j].name
  }

  /** What every reachable cart satisfies: distinct names, positive quantities. */
  ghost predicate Invariant(lines: seq<CartLine>)
  {
    NamesDistinct(lines) && forall i :: 0 <= i < |lines| ==> lines[i].qty > 0
  }

  lemma {:induction false} CountOfAbsent(lines: seq<CartLine>, name: string)
    requires forall k :: 0 <= k < |lines| ==> lines[k].name != name
    ensures CountOf(lines, name) == 0 && QtyOf(lines, name) == 0
    decreases |lines|
  {
    if lines != [] { CountOfAbsent(lines[1..], name); }
  }

  /** In a cart whose names are distinct, line `i` is the only line of its dish. */
  lemma {:induction false} OnlyLineOf(lines: seq<CartLine>, i: nat)
    requires NamesDistinct(lines) && i < |lines|
    ensures CountOf(lines, lines[i].name) == 1
    ensures QtyOf(lines, lines[i].name) == lines[i].qty
  {
    var n := lines[i].name;
    PerDishAround(lines, i, n);
    CountOfAbsent(lines[..i], n);
    CountOfAbsent(lines[i + 1..], n);
  }

  // ---------------------------------------------------------------------
  // The scan for a line with a given name
  // ---------------------------------------------------------------------

  /** The index at which the linear scan of app.py stops: the first line named `name`. */
  function FirstIndex(lines: seq<CartLine>, name: string): (r: Option<nat>)
    ensures r.Some? ==> r.value < |lines| && lines[r.value].name == name
    ensures r.Some? ==> forall k :: 0 <= k < r.value ==> lines[k].name != name
    ensures r.None? ==> forall k :: 0 <= k < |lines| ==> lines[k].name != name
    decreases |lines|
  {
    if lines == [] then None
    else if lines[0].name == name then Some(0)
    else match FirstIndex(lines[1..], name)
      case None => None
      case Some(i) => Some(i + 1)
  }

  // ---------------------------------------------------------------------
  // Specification of the two cart operations
  // ---------------------------------------------------------------------

  /**
   * The cart after "Add to Cart" with quantity `qty` for the dish `name` at
   * unit price `price`: nothing happens for quantity 0; otherwise the first
   * line with that name gets `qty` more, or a new line is appended.
   */
  function Added(lines: seq<CartLine>, name: string, price: int, qty: nat): (r: seq<CartLine>)
    ensures |r| == |lines| + (if qty > 0 && FirstIndex(lines, name).None? then 1 else 0)
    ensures forall k :: 0 <= k < |lines| ==> r[k].name == lines[k].name && r[k].price == lines[k].price
    ensures qty > 0 ==> exists k :: 0 <= k < |r| && r[k].name == name
  {
    if qty == 0 then lines
    else match FirstIndex(lines, name)
      case Some(i) => lines[i := lines[i].(qty := lines[i].qty + qty)]
      case None =>
        var r := lines + [CartLine(name, qty, price)];
        assert r[|lines|].name == name;
        r
  }

  /** The cart after `cart.pop(i)`: line `i` is gone, the rest keep their order. */
  function Removed(lines: seq<CartLine>, i: nat): (r: seq<CartLine>)
    requires i < |lines|
    ensures |r| == |lines| - 1
    ensures forall k :: 0 <= k < i ==> r[k] == lines[k]
    ensures forall k :: i <= k < |r| ==> r[k] == lines[k + 1]
  {
    lines[..i] + lines[i + 1..]
  }

  // ---------------------------------------------------------------------
  // The cart store, changed in place like `st.session_state.cart`
  // ---------------------------------------------------------------------

  class CartStore {
    /** The cart lines, in the order they were first added. */
    var lines: seq<CartLine>

    ghost predicate Valid()
      reads this
    {
      Invariant(lines)
    }

    /** A session starts with an empty cart. */
    constructor ()
      ensures Valid() && lines == []
    {
      lines := [];
    }

    /**
     * "Add to Cart": with a positive quantity, scan for a line of the same
     * dish, increment it and stop; append a new line if none was found.
     * With quantity 0 the cart is left alone and `added` is false (the
     * source shows a warning instead).
     */
    method Add(name: string, price: int, qty: nat) returns (added: bool)
      requires Valid()
      requires qty <= MaxAddQty
      modifies this
      ensures Valid()
      ensures added <==> qty > 0
      ensures lines == Added(old(lines), name, price, qty)
    {
      AddedKeepsInvariant(lines, name, price, qty);
      added := qty > 0;
      if qty > 0 {
        var found := false;
        for i := 0 to |lines|
          invariant lines == old(lines)
          invariant forall k :: 0 <= k < i ==> lines[k].name != name
        {
          if lines[i].name == name {
            lines := lines[i := lines[i].(qty := lines[i].qty + qty)];
            found := true;
            assert FirstIndex(old(lines), name) == Some(i);
            break;
          }
        }
        if !found {
          lines := lines + [CartLine(name, qty, price)];
        }
      }
    }

    /** "Remove": delete the line at index `i` (the index of a displayed line). */
    method RemoveAt(i: nat)
      requires Valid()
      requires i < |lines|
      modifies this
      ensures Valid()
      ensures lines == Removed(old(lines), i)
    {
      RemovedKeepsInvariant(lines, i);
      lines := lines[..i] + lines[i + 1..];
    }
  }

  // ---------------------------------------------------------------------
  // Properties of adding
  // ---------------------------------------------------------------------

  /** Adding a dish already in the cart raises exactly that line's quantity. */
  lemma {:induction false} AddExisting(lines: seq<CartLine>, name: string, price: int, qty: nat, i: nat)
    requires NamesDistinct(lines)
    requires qty > 0 && i < |lines| && lines[i].name == name
    ensures var r := Added(lines, name, price, qty);
      && |r| == |lines|
      && r[i] == CartLine(name, lines[i].qty + qty, lines[i].price)
      && forall k :: 0 <= k < |lines| && k != i ==> r[k] == lines[k]
  {
    var j := FirstIndex(lines, name).value;
    assert j == i;
  }

  /** Adding a dish not yet in the cart appends it as the last line. */
  lemma {:induction false} AddNew(lines: seq<CartLine>, name: string, price: int, qty: nat)
    requires qty > 0
    requires forall k :: 0 <= k < |lines| ==> lines[k].name != name
    ensures var r := Added(lines, name, price, qty);
      && |r| == |lines| + 1
      && r[..|lines|] == lines
      && r[|lines|] == CartLine(name, qty, price)
  {
  }

  /** Adding with quantity 0 changes nothing. */
  lemma {:induction false} AddZero(lines: seq<CartLine>, name: string, price: int)
    ensures Added(lines, name, price, 0) == lines
  {
  }

  /** Adding keeps the names distinct and the quantities positive. */
  lemma {:induction false} AddedKeepsInvariant(lines: seq<CartLine>, name: string, price: int, qty: nat)
    requires Invariant(lines)
    ensures Invariant(Added(lines, name, price, qty))
  {
    var r := Added(lines, name, price, qty);
    if qty > 0 {
      match FirstIndex(lines, name)
      case Some(i) =>
        assert forall k :: 0 <= k < |r| ==> r[k].name == lines[k].name;
      case None =>
        assert forall k :: 0 <= k < |lines| ==> r[k] == lines[k];
    }
  }

  /**
   * After any add, the quantity of the added dish over the cart grows by
   * exactly `qty`, that of every other dish `n` stays put, and (for a
   * positive quantity) the added dish has exactly one line.
   */
  lemma {:induction false} AddedQuantities(lines: seq<CartLine>, name: string, price: int, qty: nat, n: string)
    requires Invariant(lines)
    ensures QtyOf(Added(lines, name, price, qty), n) == QtyOf(lines, n) + (if n == name then qty else 0)
    ensures qty > 0 && n == name ==> CountOf(Added(lines, name, price, qty), n) == 1
  {
    var r := Added(lines, name, price, qty);
    if qty > 0 {
      match FirstIndex(lines, name)
      case Some(i) =>
        PerDishAround(lines, i, n);
        PerDishAround(r, i, n);
        assert r[..i] == lines[..i] && r[i + 1..] == lines[i + 1..];
        AddedKeepsInvariant(lines, name, price, qty);
        OnlyLineOf(r, i);
      case None =>
        PerDishAppend(lines, [CartLine(name, qty, price)], n);
        CountOfAbsent(lines, name);
        assert [CartLine(name, qty, price)][1..] == [];
    }
  }

  /** Raising the quantity of line `i` by `qty` raises the totals accordingly. */
  lemma {:induction false} TotalsBump(lines: seq<CartLine>, i: nat, qty: nat)
    requires i < |lines|
    ensures TotalItems(lines[i := lines[i].(qty := lines[i].qty + qty)]) == TotalItems(lines) + qty
    ensures TotalAmount(lines[i := lines[i].(qty := lines[i].qty + qty)]) == TotalAmount(lines) + qty * lines[i].price
  {
    var l := lines[i].(qty := lines[i].qty + qty);
    TotalsUpdate(lines, i, l);
    assert (lines[i].qty + qty) * lines[i].price == lines[i].qty * lines[i].price + qty * lines[i].price;
  }

  /** Appending a line adds its share to the totals. */
  lemma {:induction false} TotalsPush(lines: seq<CartLine>, l: CartLine)
    ensures TotalItems(lines + [l]) == TotalItems(lines) + l.qty
    ensures TotalAmount(lines + [l]) == TotalAmount(lines) + LineAmount(l)
  {
    TotalsAppend(lines, [l]);
    assert [l][1..] == [];
  }

  /**
   * The unit price an add is charged at: that of the line it merges into,
   * which keeps its stored price, or its own price for a new line.
   */
  function ChargedPrice(lines: seq<CartLine>, name: string, price: int): int
  {
    match FirstIndex(lines, name)
    case Some(i) => lines[i].price
    case None => price
  }

  /**
   * After an add of `qty` of a dish, the item total grows by `qty` and the
   * amount by `qty` times the price the add is charged at.
   */
  lemma {:induction false} AddedTotals(lines: seq<CartLine>, name: string, price: int, qty: nat)
    ensures TotalItems(Added(lines, name, price, qty)) == TotalItems(lines) + qty
    ensures TotalAmount(Added(lines, name, price, qty)) == TotalAmount(lines) + qty * ChargedPrice(lines, name, price)
  {
    if qty > 0 {
      match FirstIndex(lines, name)
      case Some(i) =>
        assert Added(lines, name, price, qty) == lines[i := lines[i].(qty := lines[i].qty + qty)];
        TotalsBump(lines, i, qty);
      case None =>
        assert Added(lines, name, price, qty) == lines + [CartLine(name, qty, price)];
        TotalsPush(lines, CartLine(name, qty, price));
    }
  }

  /**
   * When every line of the dish carries the catalogue price `price` (one
   * catalogue row per name), the amount grows by exactly `qty * price`.
   */
  lemma {:induction false} AddedTotalsAtPrice(lines: seq<CartLine>, name: string, price: int, qty: nat)
    requires forall k :: 0 <= k < |lines| && lines[k].name == name ==> lines[k].price == price
    ensures TotalAmount(Added(lines, name, price, qty)) == TotalAmount(lines) + qty * price
  {
    AddedTotals(lines, name, price, qty);
    assert ChargedPrice(lines, name, price) == price;
  }

  /** A run of adds of one dish: what clicking "Add to Cart" repeatedly does. */
  function AddAll(lines: seq<CartLine>, name: string, price: int, qtys: seq<nat>): seq<CartLine>
    decreases |qtys|
  {
    if qtys == [] then lines
    else AddAll(Added(lines, name, price, qtys[0]), name, price, qtys[1..])
  }

  function Sum(qtys: seq<nat>): nat
    decreases |qtys|
  {
    if qtys == [] then 0 else qtys[0] + Sum(qtys[1..])
  }

  /**
   * Any run of adds of one dish leaves the quantity of that dish raised by
   * the sum of the added quantities, on a single line once anything was added.
   */
  lemma {:induction false} AddAllMerges(lines: seq<CartLine>, name: string, price: int, qtys: seq<nat>)
    requires Invariant(lines)
    ensures Invariant(AddAll(lines, name, price, qtys))
    ensures QtyOf(AddAll(lines, name, price, qtys), name) == QtyOf(lines, name) + Sum(qtys)
    ensures Sum(qtys) > 0 ==> CountOf(AddAll(lines, name, price, qtys), name) == 1
    decreases |qtys|
  {
    if qtys != [] {
      var next := Added(lines, name, price, qtys[0]);
      AddedKeepsInvariant(lines, name, price, qtys[0]);
      AddedQuantities(lines, name, price, qtys[0], name);
      AddAllMerges(next, name, price, qtys[1..]);
      if Sum(qtys[1..]) == 0 && qtys[0] > 0 {
        AddAllUnchanged(next, name, price, qtys[1..]);
      }
    }
  }

  /** Adds of nothing but zero quantities leave the cart as it was. */
  lemma {:induction false} AddAllUnchanged(lines: seq<CartLine>, name: string, price: int, qtys: seq<nat>)
    requires Sum(qtys) == 0
    ensures AddAll(lines, name, price, qtys) == lines
    decreases |qtys|
  {
    if qtys != [] { AddAllUnchanged(lines, name, price, qtys[1..]); }
  }

  // ---------------------------------------------------------------------
  // Properties of removing
  // ---------------------------------------------------------------------

  /** Removing keeps the names distinct and the quantities positive. */
  lemma {:induction false} RemovedKeepsInvariant(lines: seq<CartLine>, i: nat)
    requires Invariant(lines) && i < |lines|
    ensures Invariant(Removed(lines, i))
  {
    var r := Removed(lines, i);
    forall a, b | 0 <= a < b < |r| ensures r[a].name != r[b].name {
      var a' := if a < i then a else a + 1;
      var b' := if b < i then b else b + 1;
      assert r[a] == lines[a'] && r[b] == lines[b'];
    }
  }

  /** After removing line `i`, both totals drop by exactly that line's share. */
  lemma {:induction false} RemovedTotals(lines: seq<CartLine>, i: nat)
    requires i < |lines|
    ensures TotalAmount(Removed(lines, i)) == TotalAmount(lines) - lines[i].qty * lines[i].price
    ensures TotalItems(Removed(lines, i)) == TotalItems(lines) - lines[i].qty
  {
    TotalsAround(lines, i);
    TotalsAppend(lines[..i], lines[i + 1..]);
  }

  /** Names being distinct, the dish of a removed line is no longer in the cart. */
  lemma {:induction false} RemovedDish(lines: seq<CartLine>, i: nat)
    requires Invariant(lines) && i < |lines|
    ensures QtyOf(Removed(lines, i), lines[i].name) == 0
    ensures CountOf(Removed(lines, i), lines[i].name) == 0
  {
    var n := lines[i].name;
    PerDishAround(lines, i, n);
    PerDishAppend(lines[..i], lines[i + 1..], n);
    OnlyLineOf(lines, i);
  }
}
