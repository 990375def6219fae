/** Entities of the Sales domain and the Sale lifecycle events, as values. */
module Domain {
  import opened Common

  /** C# `decimal` is exact base-10 arithmetic; a real number models it exactly. */
  type Decimal = real

  /** `DateTime` as a tick count; `default(DateTime)` is tick 0. */
  type DateTime = int
  const DefaultDateTime: DateTime := 0

  /** The text of `Guid.NewGuid().ToString()`: always 36 characters. */
  type GuidText = s: string | |s| == 36 witness "00000000-0000-0000-0000-000000000000"

  /** Length of a generated sale number. */
  const SaleNumberLength := 20

  datatype SaleStatus = Active | Cancelled | Completed

  datatype Customer = Customer(id: int, customerName: Option<string>)

  datatype Branch = Branch(id: int, branchName: Option<string>)

  datatype Product = Product(id: int, productName: string, unitPrice: Decimal)

  /** A sale line. `totalItemValue` is held in memory only: it is never written to the store. */
  datatype SaleItem = SaleItem(
    id: int,
    saleId: int,
    productId: int,
    quantity: int,
    unitPrice: Decimal,
    discount: Decimal,
    totalItemValue: Decimal)

  /** The Sale aggregate root with its navigation properties (customer, branch, items). */
  datatype Sale = Sale(
    id: int,
    saleNumber: Option<string>,
    saleDate: DateTime,
    customerId: int,
    branchId: int,
    totalSaleValue: Decimal,
    saleStatus: SaleStatus,
    customer: Option<Customer>,
    branch: Option<Branch>,
    items: seq<SaleItem>)

  /**
   * The line value a handler computes when it builds a sale item: the gross value
   * of the line less its discount, so never above the gross value when the
   * discount is not negative, and exactly the gross value without a discount.
   */
  function LineTotal(unitPrice: Decimal, quantity: int, discount: Decimal): (r: Decimal)
    ensures r <= unitPrice * quantity as Decimal <==> discount >= 0.0
    ensures discount == 0.0 ==> r == unitPrice * quantity as Decimal
    ensures r >= 0.0 <==> discount <= unitPrice * quantity as Decimal
  {
    unitPrice * quantity as Decimal - discount
  }

  /** `items.Sum(item => item.TotalItemValue)`. */
  function SumOfItemTotals(items: seq<SaleItem>): Decimal
    decreases |items|
  {
    if items == [] then 0.0
    else SumOfItemTotals(items[..|items| - 1]) + items[|items| - 1].totalItemValue
  }

  lemma {:induction false} SumOfItemTotalsAppend(a: seq<SaleItem>, b: seq<SaleItem>)
    ensures SumOfItemTotals(a + b) == SumOfItemTotals(a) + SumOfItemTotals(b)
    decreases |b|
  {
    if b == [] {
      assert a + b == a;
    } else {
      var b' := b[..|b| - 1];
      assert (a + b)[..|a + b| - 1] == a + b';
      SumOfItemTotalsAppend(a, b');
    }
  }

  /** The payload every Sale lifecycle event carries. */
  datatype SaleEventData = SaleEventData(id: int, customerId: int, branchId: int, saleStatus: SaleStatus)

  datatype EventType = SaleCreated | SaleUpdated | SaleCancelled

  datatype Event =
    | SaleCreatedEvent(data: SaleEventData)
    | SaleUpdatedEvent(data: SaleEventData)
    | SaleCancelledEvent(data: SaleEventData)
  {
    /** The runtime type of the event object. */
    function Type(): EventType {
      match this
      case SaleCreatedEvent(_) => SaleCreated
      case SaleUpdatedEvent(_) => SaleUpdated
      case SaleCancelledEvent(_) => SaleCancelled
    }
  }

  /** The event payload taken from a sale. */
  function EventDataOf(sale: Sale): SaleEventData {
    SaleEventData(sale.id, sale.customerId, sale.branchId, sale.saleStatus)
  }
}
