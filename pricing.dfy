/** `calculateTotalPrice`: the total of a list of products, each line being
    price times quantity less a percentage discount, failing on the first
    product whose discount lies outside [0, 100]. */
module Pricing {
  import opened Wrappers

  /** A product line; a JavaScript number is a `real`, and an absent
      `discount` is `None`. */
  datatype Product = Product(name: string, price: real, quantity: real, discount: Option<real>)

  /** The error thrown for an out-of-range discount, with the product's name
      and the offending value. */
  datatype PriceError = InvalidDiscount(name: string, discount: real)

  /** The product carries a discount, and it is below 0 or above 100. */
  predicate HasInvalidDiscount(p: Product) {
    p.discount.Some? && (p.discount.value < 0.0 || p.discount.value > 100.0)
  }

  /** The discount percentage that applies to the product: 0 when absent. */
  function DiscountPercent(p: Product): (d: real)
    ensures !HasInvalidDiscount(p) ==> 0.0 <= d <= 100.0
    ensures p.discount.None? ==> d == 0.0
  {
    p.discount.GetOr(0.0)
  }

  // ----- The implementation: a reduce whose callback may throw -----

  /** The amount a product adds to the running total once its discount has
      passed the range check. A discount is applied only when it is present
      and non-zero (a JavaScript truthiness test). */
  function LineTotal(p: Product): real {
    var productTotal := p.price * p.quantity;
    var discount := if p.discount.Some? && p.discount.value != 0.0
                    then (productTotal * p.discount.value) / 100.0 else 0.0;
    productTotal - discount
  }

  /** The `reduce` callback: range-checks the discount, then adds the line. */
  function Step(total: real, p: Product): (r: Result<real, PriceError>)
    ensures r.Failure? <==> HasInvalidDiscount(p)
  {
    if p.discount.Some? && (p.discount.value < 0.0 || p.discount.value > 100.0) then
      Failure(InvalidDiscount(p.name, p.discount.value))
    else
      Success(total + LineTotal(p))
  }

  /** `products.reduce(step, total)`: a thrown error ends the fold. */
  function Reduce(total: real, products: seq<Product>): Result<real, PriceError>
    decreases |products|
  {
    if products == [] then Success(total)
    else
      match Step(total, products[0])
      case Failure(e) => Failure(e)
      case Success(t) => Reduce(t, products[1..])
  }

  // ----- The specification -----

  /** Price times quantity, before any discount. */
  function Gross(p: Product): real {
    p.price * p.quantity
  }

  /** The discounted line amount, with an absent discount read as 0. */
  function Net(p: Product): real {
    Gross(p) - Gross(p) * DiscountPercent(p) / 100.0
  }

  /** The sum of the discounted line amounts. */
  function Sum(products: seq<Product>): real
    decreases |products|
  {
    if products == [] then 0.0 else Net(products[0]) + Sum(products[1..])
  }

  /** The sum of price times quantity, before discounts. */
  function GrossSum(products: seq<Product>): real
    decreases |products|
  {
    if products == [] then 0.0 else Gross(products[0]) + GrossSum(products[1..])
  }

  /** `k` is the position of the first product with an invalid discount. */
  predicate IsFirstInvalid(products: seq<Product>, k: nat) {
    k < |products| && HasInvalidDiscount(products[k]) &&
    forall i :: 0 <= i < k ==> !HasInvalidDiscount(products[i])
  }

  /** The position of the first product with an invalid discount, if any. */
  function FirstInvalid(products: seq<Product>): (r: Option<nat>)
    ensures r.Some? ==> IsFirstInvalid(products, r.value)
    ensures r.None? <==> forall i :: 0 <= i < |products| ==> !HasInvalidDiscount(products[i])
    decreases |products|
  {
    if products == [] then None
    else if HasInvalidDiscount(products[0]) then Some(0)
    else
      match FirstInvalid(products[1..])
      case None => None
      case Some(k) => Some(k + 1)
  }

  // ----- The implementation meets the specification -----

  /** An absent discount and a discount of 0 contribute the same amount, and
      the truthiness test agrees with the plain formula. */
  lemma LineTotalIsNet(p: Product)
    ensures LineTotal(p) == Net(p)
    ensures LineTotal(p.(discount := None)) == LineTotal(p.(discount := Some(0.0)))
  {
  }

  /** Folding from `total` fails with the first invalid product's name and
      discount, and otherwise adds the sum of the discounted lines. */
  lemma {:induction false} ReduceMeetsSpec(total: real, products: seq<Product>)
    ensures Reduce(total, products) ==
      match FirstInvalid(products)
      case None => Success(total + Sum(products))
      case Some(k) => Failure(InvalidDiscount(products[k].name, products[k].discount.value))
    decreases |products|
  {
    if products != [] {
      var p := products[0];
      if !HasInvalidDiscount(p) {
        LineTotalIsNet(p);
        ReduceMeetsSpec(total + LineTotal(p), products[1..]);
      }
    }
  }

  /** `calculateTotalPrice(products)`: fails exactly when some product has an
      out-of-range discount, naming the first such product and its discount;
      otherwise returns the sum of the discounted lines. */
  function CalculateTotalPrice(products: seq<Product>): (r: Result<real, PriceError>)
    ensures products == [] ==> r == Success(0.0)
    ensures r.Failure? <==> exists i :: 0 <= i < |products| && HasInvalidDiscount(products[i])
    ensures r.Failure? ==> exists k: nat :: (IsFirstInvalid(products, k) &&
      r.error == InvalidDiscount(products[k].name, products[k].discount.value))
    ensures r.Success? ==> r.value == Sum(products)
  {
    ReduceMeetsSpec(0.0, products);
    Reduce(0.0, products)
  }

  // ----- Properties of the total -----

  /** `g * (1 - d/100)` is `g - g*d/100`. */
  lemma Distribute(g: real, d: real)
    ensures g * (1.0 - d / 100.0) == g - g * d / 100.0
  {
    calc {
      g * (1.0 - d / 100.0);
      g * 1.0 - g * (d / 100.0);
      g - (g * d) / 100.0;
    }
  }

  /** A single valid product costs price times quantity times (1 - d/100). */
  lemma SingleProduct(p: Product)
    requires !HasInvalidDiscount(p)
    ensures CalculateTotalPrice([p]) == Success(p.price * p.quantity * (1.0 - DiscountPercent(p) / 100.0))
  {
    var r := CalculateTotalPrice([p]);
    assert !HasInvalidDiscount([p][0]);
    assert r.Success? && r.value == Sum([p]);
    assert Sum([p]) == Net(p) + Sum([]);
    Distribute(Gross(p), DiscountPercent(p));
    assert Net(p) == Gross(p) * (1.0 - DiscountPercent(p) / 100.0);
    assert r.value == p.price * p.quantity * (1.0 - DiscountPercent(p) / 100.0);
  }

  /** A discounted line lies between 0 and its undiscounted amount. */
  lemma NetBounds(p: Product)
    requires p.price >= 0.0 && p.quantity >= 0.0 && !HasInvalidDiscount(p)
    ensures 0.0 <= Net(p) <= Gross(p)
  {
    var g, d := Gross(p), DiscountPercent(p);
    assert g >= 0.0;
    assert g * d <= g * 100.0;
    assert g * d >= 0.0;
  }

  /** With non-negative prices and quantities and valid discounts, the sum
      lies between 0 and the undiscounted sum. */
  lemma {:induction false} SumBounds(products: seq<Product>)
    requires forall p :: p in products ==> p.price >= 0.0 && p.quantity >= 0.0 && !HasInvalidDiscount(p)
    ensures 0.0 <= Sum(products) <= GrossSum(products)
    decreases |products|
  {
    if products != [] {
      NetBounds(products[0]);
      SumBounds(products[1..]);
    }
  }

  /** With non-negative prices and quantities and valid discounts, the call
      succeeds with a total between 0 and the undiscounted total. */
  lemma TotalBounds(products: seq<Product>)
    requires forall p :: p in products ==> p.price >= 0.0 && p.quantity >= 0.0 && !HasInvalidDiscount(p)
    ensures CalculateTotalPrice(products).Success?
    ensures 0.0 <= CalculateTotalPrice(products).value <= GrossSum(products)
  {
    SumBounds(products);
  }

  /** The sum of a concatenation is the sum of the sums. */
  lemma {:induction false} SumAppend(a: seq<Product>, b: seq<Product>)
    ensures Sum(a + b) == Sum(a) + Sum(b)
    decreases |a|
  {
    if a == [] {
      assert a + b == b;
    } else {
      assert (a + b)[1..] == a[1..] + b;
      SumAppend(a[1..], b);
    }
  }

  /** Taking one product out of the list takes its line out of the sum. */
  lemma SumRemove(b: seq<Product>, j: nat)
    requires j < |b|
    ensures Sum(b) == Net(b[j]) + Sum(b[..j] + b[j + 1..])
  {
    assert b == b[..j] + ([b[j]] + b[j + 1..]);
    SumAppend(b[..j], [b[j]] + b[j + 1..]);
    SumAppend(b[..j], b[j + 1..]);
    assert ([b[j]] + b[j + 1..])[1..] == b[j + 1..];
  }

  /** Taking the same product out of two reorderings of each other leaves
      reorderings of each other. */
  lemma MultisetRemove(a: seq<Product>, b: seq<Product>, j: nat)
    requires multiset(a) == multiset(b) && a != [] && j < |b| && b[j] == a[0]
    ensures multiset(a[1..]) == multiset(b[..j] + b[j + 1..])
  {
    assert a == [a[0]] + a[1..];
    assert b == b[..j] + [b[j]] + b[j + 1..];
    calc {
      multiset(a[1..]);
      multiset(a) - multiset{a[0]};
      multiset(b) - multiset{b[j]};
      multiset(b[..j]) + multiset(b[j + 1..]);
      multiset(b[..j] + b[j + 1..]);
    }
  }

  /** Reordering the products does not change the sum. */
  lemma {:induction false} SumPermutation(a: seq<Product>, b: seq<Product>)
    requires multiset(a) == multiset(b)
    ensures Sum(a) == Sum(b)
    decreases |a|
  {
    if a != [] {
      assert a[0] in multiset(b);
      var j :| 0 <= j < |b| && b[j] == a[0];
      MultisetRemove(a, b, j);
      SumPermutation(a[1..], b[..j] + b[j + 1..]);
      SumRemove(b, j);
    } else {
      assert |b| == |multiset(b)| == 0;
    }
  }

  /** A product with an invalid discount in `a` is also in any reordering `b`. */
  lemma SameInvalidity(a: seq<Product>, b: seq<Product>)
    requires multiset(a) == multiset(b)
    ensures (exists i :: 0 <= i < |a| && HasInvalidDiscount(a[i])) ==>
            (exists j :: 0 <= j < |b| && HasInvalidDiscount(b[j]))
  {
    if i :| 0 <= i < |a| && HasInvalidDiscount(a[i]) {
      assert a[i] in multiset(b);
      var j :| 0 <= j < |b| && b[j] == a[i];
    }
  }

  /** Reordering the products changes neither whether the call fails nor,
      when it succeeds, the total. (Which product a failure names may differ:
      it is the first invalid one in each order.) */
  lemma TotalPermutation(a: seq<Product>, b: seq<Product>)
    requires multiset(a) == multiset(b)
    ensures CalculateTotalPrice(a).Success? <==> CalculateTotalPrice(b).Success?
    ensures CalculateTotalPrice(a).Success? ==> CalculateTotalPrice(a).value == CalculateTotalPrice(b).value
  {
    SameInvalidity(a, b);
    SameInvalidity(b, a);
    SumPermutation(a, b);
  }

  /** The first example scenario: 10 x 2 at 10% off plus 5 x 1 is 23. */
  lemma ExampleTotal()
    ensures CalculateTotalPrice([Product("A", 10.0, 2.0, Some(10.0)), Product("B", 5.0, 1.0, None)]) == Success(23.0)
  {
    var ps := [Product("A", 10.0, 2.0, Some(10.0)), Product("B", 5.0, 1.0, None)];
    assert Sum(ps) == Net(ps[0]) + Net(ps[1]) + Sum([]);
  }

  /** The second example scenario: a discount of 150 is reported with its product. */
  lemma ExampleInvalidDiscount()
    ensures CalculateTotalPrice([Product("C", 100.0, 1.0, Some(150.0))]) == Failure(InvalidDiscount("C", 150.0))
  {
    var ps := [Product("C", 100.0, 1.0, Some(150.0))];
    assert IsFirstInvalid(ps, 0);
  }
}
