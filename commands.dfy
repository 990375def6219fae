/** The command records the handlers accept. They carry data only. */
module Commands {
  import opened Common
  import opened Domain

  /** A requested sale line; the create and update commands use the same shape. */
  datatype SaleItemDto = SaleItemDto(productId: int, quantity: int, unitPrice: Decimal, discount: Decimal)

  datatype CreateSaleCommand = CreateSaleCommand(
    saleDate: DateTime,
    customerId: int,
    branchId: int,
    items: seq<SaleItemDto>)

  /** Every field but the id and the item list is optional: absent means "keep". */
  datatype UpdateSaleCommand = UpdateSaleCommand(
    id: int,
    saleDate: Option<DateTime>,
    customerId: Option<int>,
    branchId: Option<int>,
    saleStatus: Option<SaleStatus>,
    items: seq<SaleItemDto>)

  datatype CreateProductCommand = CreateProductCommand(productName: string, unitPrice: Decimal)

  datatype UpdateProductCommand = UpdateProductCommand(id: int, productName: string, unitPrice: Decimal)

  datatype DeleteProductCommand = DeleteProductCommand(id: int)
}
