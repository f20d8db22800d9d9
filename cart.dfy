/** The storefront's shopping cart: an ordered list of lines, one per product,
    changed by the page's add and remove actions. */
module Cart {
  import opened Catalogue
  import opened Sequences

  /** One line of the cart: a catalogue product and how many of it. */
  datatype CartLine = CartLine(product: Product, quantity: nat)

  /** The cart's invariant: one line per product id, and every line holds at
      least one item. */
  ghost predicate ValidLines(lines: seq<CartLine>) {
    && (forall i, j :: 0 <= i < j < |lines| ==> lines[i].product.id != lines[j].product.id)
    && (forall i :: 0 <= i < |lines| ==> lines[i].quantity >= 1)
  }

  /** The lookup of the add action: some line holds the product with this id. */
  predicate HasLine(lines: seq<CartLine>, id: string)
    ensures HasLine(lines, id) <==> exists i :: 0 <= i < |lines| && lines[i].product.id == id
  {
    if lines == [] then false
    else if lines[0].product.id == id then true
    else
      var rest := HasLine(lines[1..], id);
      assert forall i :: 0 <= i < |lines| - 1 ==> lines[1..][i] == lines[i + 1];
      assert rest ==> exists i :: 0 <= i < |lines| && lines[i].product.id == id by {
        if rest {
          var i :| 0 <= i < |lines[1..]| && lines[1..][i].product.id == id;
          assert lines[i + 1].product.id == id;
        }
      }
      rest
  }

  /** The add action: bump the quantity of the product's line if there is one,
      otherwise append a new line holding one item. A bumped line keeps the
      product record it already had. */
  function AddLine(lines: seq<CartLine>, product: Product): seq<CartLine> {
    if HasLine(lines, product.id) then
      seq(|lines|, i requires 0 <= i < |lines| =>
        if lines[i].product.id == product.id then lines[i].(quantity := lines[i].quantity + 1) else lines[i])
    else lines + [CartLine(product, 1)]
  }

  /** The remove action: drop every line of the product with this id. */
  function RemoveLines(lines: seq<CartLine>, id: string): seq<CartLine> {
    Filter(lines, Unmatched(id))
  }

  /** The test the remove action keeps a line by. */
  function Unmatched(id: string): CartLine -> bool {
    (line: CartLine) => line.product.id != id
  }

  function LineTotal(line: CartLine): nat {
    line.product.price * line.quantity
  }

  /** The cart total: price times quantity, summed line by line from the first. */
  function CartTotal(lines: seq<CartLine>): nat {
    if lines == [] then 0 else CartTotal(lines[..|lines| - 1]) + LineTotal(lines[|lines| - 1])
  }

  /** Adding a product that already has a line increments that line's quantity
      by one and changes nothing else. */
  lemma AddExisting(lines: seq<CartLine>, product: Product, k: nat)
    requires ValidLines(lines)
    requires k < |lines| && lines[k].product.id == product.id
    ensures AddLine(lines, product) == lines[k := lines[k].(quantity := lines[k].quantity + 1)]
  {
    assert HasLine(lines, product.id);
  }

  /** Adding a product without a line appends one line with quantity one and
      leaves the earlier lines untouched. */
  lemma AddNew(lines: seq<CartLine>, product: Product)
    requires forall i :: 0 <= i < |lines| ==> lines[i].product.id != product.id
    ensures AddLine(lines, product) == lines + [CartLine(product, 1)]
  {
  }

  /** Adding keeps the invariant. */
  lemma AddPreservesValid(lines: seq<CartLine>, product: Product)
    requires ValidLines(lines)
    ensures ValidLines(AddLine(lines, product))
  {
  }

  /** Removing keeps the invariant. */
  lemma {:induction false} RemovePreservesValid(lines: seq<CartLine>, id: string)
    requires ValidLines(lines)
    ensures ValidLines(RemoveLines(lines, id))
  {
    if lines != [] {
      var keep := Unmatched(id);
      var rest := lines[1..];
      assert ValidLines(rest) by {
        forall i, j | 0 <= i < j < |rest| ensures rest[i].product.id != rest[j].product.id {
          assert rest[i] == lines[i + 1] && rest[j] == lines[j + 1];
        }
      }
      RemovePreservesValid(rest, id);
      var head := if keep(lines[0]) then [lines[0]] else [];
      var tail := RemoveLines(rest, id);
      assert RemoveLines(lines, id) == head + tail;
      forall line | line in tail ensures line.product.id != lines[0].product.id {
        assert line in rest;
      }
    }
  }

  /** Removing an id without a line leaves the cart as it is. */
  lemma RemoveAbsent(lines: seq<CartLine>, id: string)
    requires !HasLine(lines, id)
    ensures RemoveLines(lines, id) == lines
  {
    FilterKeepsAll(lines, Unmatched(id));
  }

  /** Removing the product of line `k` deletes exactly that line and keeps the
      order of the rest. */
  lemma RemoveExisting(lines: seq<CartLine>, k: nat)
    requires ValidLines(lines) && k < |lines|
    ensures RemoveLines(lines, lines[k].product.id) == lines[..k] + lines[k + 1..]
  {
    RemoveOnlyLine(lines, k);
  }

  lemma {:induction false} RemoveOnlyLine(lines: seq<CartLine>, k: nat)
    requires k < |lines|
    requires forall i :: 0 <= i < |lines| && i != k ==> lines[i].product.id != lines[k].product.id
    ensures RemoveLines(lines, lines[k].product.id) == lines[..k] + lines[k + 1..]
  {
    var id := lines[k].product.id;
    var rest := lines[1..];
    if k == 0 {
      assert forall i :: 0 <= i < |rest| ==> Unmatched(id)(rest[i]) by {
        assert forall i :: 0 <= i < |rest| ==> rest[i] == lines[i + 1];
      }
      FilterKeepsAll(rest, Unmatched(id));
    } else {
      assert rest[k - 1] == lines[k];
      assert forall i :: 0 <= i < |rest| && i != k - 1 ==> rest[i].product.id != id by {
        assert forall i :: 0 <= i < |rest| ==> rest[i] == lines[i + 1];
      }
      RemoveOnlyLine(rest, k - 1);
      assert lines[..k] == [lines[0]] + rest[..k - 1];
      assert lines[k + 1..] == rest[k..];
    }
  }

  /** The total of two carts laid end to end is the sum of their totals. */
  lemma {:induction false} TotalAppend(a: seq<CartLine>, b: seq<CartLine>)
    ensures CartTotal(a + b) == CartTotal(a) + CartTotal(b)
  {
    if b != [] {
      assert (a + b)[..|a + b| - 1] == a + b[..|b| - 1];
      TotalAppend(a, b[..|b| - 1]);
    } else {
      assert a + b == a;
    }
  }

  /** The total splits around any line. */
  lemma TotalSplit(lines: seq<CartLine>, k: nat)
    requires k < |lines|
    ensures CartTotal(lines) == CartTotal(lines[..k]) + LineTotal(lines[k]) + CartTotal(lines[k + 1..])
  {
    assert lines == lines[..k] + [lines[k]] + lines[k + 1..];
    TotalAppend(lines[..k] + [lines[k]], lines[k + 1..]);
    TotalAppend(lines[..k], [lines[k]]);
    assert [lines[k]][..0] == [];
  }

  /** Replacing line `k` changes the total by the difference of the two lines. */
  lemma TotalUpdate(lines: seq<CartLine>, k: nat, line: CartLine)
    requires k < |lines|
    ensures CartTotal(lines[k := line]) + LineTotal(lines[k]) == CartTotal(lines) + LineTotal(line)
  {
    var updated := lines[k := line];
    TotalSplit(lines, k);
    TotalSplit(updated, k);
    assert updated[..k] == lines[..k] && updated[k + 1..] == lines[k + 1..];
  }

  /** Adding a product raises the total by its price, provided any line
      already held for its id carries the same price. */
  lemma TotalAfterAdd(lines: seq<CartLine>, product: Product)
    requires ValidLines(lines) && PriceAgrees(lines, product)
    ensures CartTotal(AddLine(lines, product)) == CartTotal(lines) + product.price
  {
    if HasLine(lines, product.id) {
      assert exists i :: 0 <= i < |lines| && lines[i].product.id == product.id;
      var k :| 0 <= k < |lines| && lines[k].product.id == product.id;
      AddExisting(lines, product, k);
      TotalAfterBump(lines, k);
    } else {
      assert AddLine(lines, product) == lines + [CartLine(product, 1)];
      TotalAppend(lines, [CartLine(product, 1)]);
      TotalSingle(CartLine(product, 1));
    }
  }

  /** Bumping line `k` raises the total by that line's price. */
  lemma TotalAfterBump(lines: seq<CartLine>, k: nat)
    requires k < |lines|
    ensures CartTotal(lines[k := lines[k].(quantity := lines[k].quantity + 1)]) == CartTotal(lines) + lines[k].product.price
  {
    TotalUpdate(lines, k, lines[k].(quantity := lines[k].quantity + 1));
    BumpTotal(lines[k]);
  }

  lemma BumpTotal(line: CartLine)
    ensures LineTotal(line.(quantity := line.quantity + 1)) == LineTotal(line) + line.product.price
  {
    assert line.product.price * (line.quantity + 1) == line.product.price * line.quantity + line.product.price;
  }

  lemma TotalSingle(line: CartLine)
    ensures CartTotal([line]) == LineTotal(line)
  {
    assert [line][..0] == [];
  }

  /** The sum of the line totals as a right fold: the first line plus the sum of the rest. */
  function SumLines(lines: seq<CartLine>): nat {
    if lines == [] then 0 else LineTotal(lines[0]) + SumLines(lines[1..])
  }

  /** The running total of the page agrees with the plain sum of the lines. */
  lemma {:induction false} TotalIsSum(lines: seq<CartLine>)
    ensures CartTotal(lines) == SumLines(lines)
  {
    if lines != [] {
      TotalIsSum(lines[1..]);
      assert lines == [lines[0]] + lines[1..];
      TotalAppend([lines[0]], lines[1..]);
      TotalSingle(lines[0]);
    }
  }

  /** Any line already held for the product's id carries the product's price. */
  predicate PriceAgrees(lines: seq<CartLine>, product: Product) {
    forall i :: 0 <= i < |lines| && lines[i].product.id == product.id ==>
      lines[i].product.price == product.price
  }

  /** Removing the product of line `k` lowers the total by that line's total. */
  lemma TotalAfterRemove(lines: seq<CartLine>, k: nat)
    requires ValidLines(lines) && k < |lines|
    ensures CartTotal(RemoveLines(lines, lines[k].product.id)) + LineTotal(lines[k]) == CartTotal(lines)
  {
    RemoveExisting(lines, k);
    TotalSplit(lines, k);
    TotalAppend(lines[..k], lines[k + 1..]);
  }

  /** The cart of the page: a state cell that each action replaces. */
  class ShoppingCart {
    var lines: seq<CartLine>

    ghost predicate Valid()
      reads this
    {
      ValidLines(lines)
    }

    constructor ()
      ensures Valid() && lines == []
    {
      lines := [];
    }

    method Add(product: Product)
      requires Valid()
      modifies this
      ensures Valid() && lines == AddLine(old(lines), product)
      ensures PriceAgrees(old(lines), product) ==> Total() == old(Total()) + product.price
    {
      AddPreservesValid(lines, product);
      if PriceAgrees(lines, product) {
        TotalAfterAdd(lines, product);
      }
      lines := AddLine(lines, product);
    }

    method Remove(productId: string)
      requires Valid()
      modifies this
      ensures Valid() && lines == RemoveLines(old(lines), productId)
      ensures !HasLine(old(lines), productId) ==> lines == old(lines)
      ensures forall k :: 0 <= k < |old(lines)| && old(lines)[k].product.id == productId ==>
        Total() + LineTotal(old(lines)[k]) == old(Total())
    {
      RemovePreservesValid(lines, productId);
      if !HasLine(lines, productId) {
        RemoveAbsent(lines, productId);
      }
      forall k | 0 <= k < |lines| && lines[k].product.id == productId
        ensures CartTotal(RemoveLines(lines, productId)) + LineTotal(lines[k]) == CartTotal(lines)
      {
        TotalAfterRemove(lines, k);
      }
      lines := RemoveLines(lines, productId);
    }

    function Total(): nat
      reads this
    {
      CartTotal(lines)
    }
  }

  /** Adding the same product twice to an empty cart gives one line of
      quantity two, worth twice the price. */
  method AddTwice(product: Product) returns (lines: seq<CartLine>, total: nat)
    ensures lines == [CartLine(product, 2)] && total == 2 * product.price
  {
    var cart := new ShoppingCart();
    cart.Add(product);
    cart.Add(product);
    AddExisting([CartLine(product, 1)], product, 0);
    lines, total := cart.lines, cart.Total();
    TotalSingle(CartLine(product, 2));
  }

  /** Adding a product three times and then removing it empties the cart. */
  method AddThriceThenRemove(product: Product) returns (lines: seq<CartLine>, total: nat)
    ensures lines == [] && total == 0
  {
    var cart := new ShoppingCart();
    cart.Add(product);
    cart.Add(product);
    cart.Add(product);
    assert |cart.lines| == 1 && cart.lines[0].product.id == product.id by {
      AddExisting([CartLine(product, 1)], product, 0);
      AddExisting([CartLine(product, 2)], product, 0);
    }
    RemoveExisting(cart.lines, 0);
    cart.Remove(product.id);
    lines, total := cart.lines, cart.Total();
  }
}
