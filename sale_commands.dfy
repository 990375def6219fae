/**
 * `CreateSaleCommandHandler` and `UpdateSaleCommandHandler`: validate the command,
 * build or overwrite the Sale, write it through the repository and announce it
 * with one event. Every exception becomes an error response.
 */
module SaleCommands {
  import opened Common
  import opened Domain
  import opened Commands
  import opened Validators
  import opened Responses
  import opened Persistence
  import opened Messaging

  const SaleNotFound := "Sale not found."
  const SaleUpdateFailed := "Error while updating Sale."

  // ---------------------------------------------------------------- building a sale

  /** The new item for a requested line: its line total computed, ids left to the store. */
  function BuildItem(dto: SaleItemDto): SaleItem {
    SaleItem(0, 0, dto.productId, dto.quantity, dto.unitPrice, dto.discount,
             LineTotal(dto.unitPrice, dto.quantity, dto.discount))
  }

  /** The `Select` over the requested lines. */
  function BuildItems(dtos: seq<SaleItemDto>): (r: seq<SaleItem>)
    ensures |r| == |dtos|
    ensures forall k :: 0 <= k < |dtos| ==>
      && r[k].productId == dtos[k].productId && r[k].quantity == dtos[k].quantity
      && r[k].unitPrice == dtos[k].unitPrice && r[k].discount == dtos[k].discount
      && r[k].totalItemValue == dtos[k].unitPrice * dtos[k].quantity as Decimal - dtos[k].discount
    decreases |dtos|
  {
    if dtos == [] then []
    else
      var n := |dtos| - 1;
      assert forall k :: 0 <= k < n ==> dtos[..n][k] == dtos[k];
      BuildItems(dtos[..n]) + [BuildItem(dtos[n])]
  }

  /** The reference total of a request: the sum of `UnitPrice * Quantity - Discount` over its lines. */
  function LinesTotal(dtos: seq<SaleItemDto>): Decimal
    decreases |dtos|
  {
    if dtos == [] then 0.0
    else
      var last := dtos[|dtos| - 1];
      LinesTotal(dtos[..|dtos| - 1]) + (last.unitPrice * last.quantity as Decimal - last.discount)
  }

  /** The sale total, the sum of the built items' totals, is the sum of the requested lines. */
  lemma {:induction false} BuildItemsTotal(dtos: seq<SaleItemDto>)
    ensures SumOfItemTotals(BuildItems(dtos)) == LinesTotal(dtos)
    decreases |dtos|
  {
    if dtos != [] {
      var n := |dtos| - 1;
      BuildItemsTotal(dtos[..n]);
      var items := BuildItems(dtos);
      assert items[..n] == BuildItems(dtos[..n]);
    }
  }

  /**
   * The sale a create command builds: an Active sale with the command's date,
   * customer and branch, a 20-character sale number cut from a fresh GUID, one item
   * per requested line in order, and the total of those lines.
   */
  function NewSale(request: CreateSaleCommand, guid: GuidText): (r: Sale)
    ensures r.saleNumber.Some? && |r.saleNumber.value| == SaleNumberLength
    ensures r.saleNumber.value == guid[..SaleNumberLength]
    ensures r.saleStatus == Active
    ensures r.saleDate == request.saleDate && r.customerId == request.customerId && r.branchId == request.branchId
    ensures r.items == BuildItems(request.items)
    ensures r.totalSaleValue == LinesTotal(request.items)
    ensures r.id == 0 && r.customer.None? && r.branch.None?
  {
    var items := BuildItems(request.items);
    BuildItemsTotal(request.items);
    Sale(0, Some(guid[..SaleNumberLength]), request.saleDate, request.customerId, request.branchId,
         SumOfItemTotals(items), Active, None, None, items)
  }

  /**
   * The fetched sale after an update request: each optional field overwritten only
   * when present; a non-empty item list replaces the items and the total; the id,
   * sale number and navigation properties stay as fetched.
   */
  function Overwritten(fetched: Sale, request: UpdateSaleCommand): (r: Sale)
    ensures r.id == fetched.id && r.saleNumber == fetched.saleNumber
    ensures r.customer == fetched.customer && r.branch == fetched.branch
    ensures request.saleDate.Some? ==> r.saleDate == request.saleDate.value
    ensures request.saleDate.None? ==> r.saleDate == fetched.saleDate
    ensures request.customerId.Some? ==> r.customerId == request.customerId.value
    ensures request.customerId.None? ==> r.customerId == fetched.customerId
    ensures request.branchId.Some? ==> r.branchId == request.branchId.value
    ensures request.branchId.None? ==> r.branchId == fetched.branchId
    ensures request.saleStatus.Some? ==> r.saleStatus == request.saleStatus.value
    ensures request.saleStatus.None? ==> r.saleStatus == fetched.saleStatus
    ensures request.items != [] ==> r.items == BuildItems(request.items) && r.totalSaleValue == LinesTotal(request.items)
    ensures request.items == [] ==> r.items == fetched.items && r.totalSaleValue == fetched.totalSaleValue
  {
    var dated := if request.saleDate.Some? then fetched.(saleDate := request.saleDate.value) else fetched;
    var withCustomer := if request.customerId.Some? then dated.(customerId := request.customerId.value) else dated;
    var withBranch := if request.branchId.Some? then withCustomer.(branchId := request.branchId.value) else withCustomer;
    var withStatus := if request.saleStatus.Some? then withBranch.(saleStatus := request.saleStatus.value) else withBranch;
    if request.items != [] then
      BuildItemsTotal(request.items);
      var items := BuildItems(request.items);
      withStatus.(items := items, totalSaleValue := SumOfItemTotals(items))
    else withStatus
  }

  /** The event announcing an update: a cancellation for a cancelled sale, an update otherwise. */
  function UpdateEvent(sale: Sale): (r: Event)
    ensures r.data == EventDataOf(sale)
    ensures r.Type() == SaleCancelled <==> sale.saleStatus == Cancelled
    ensures r.Type() == SaleUpdated <==> sale.saleStatus != Cancelled
  {
    if sale.saleStatus == Cancelled then SaleCancelledEvent(EventDataOf(sale)) else SaleUpdatedEvent(EventDataOf(sale))
  }

  /**
   * What the update handler makes of the repository's answer before publishing:
   * an exception's message, the fixed message for `false`, or nothing for `true`.
   */
  function UpdateError(result: Outcome<bool>): (r: Option<string>)
    ensures result.Raised? ==> r == Some(result.message)
    ensures result == Ok(false) ==> r == Some(SaleUpdateFailed)
    ensures r.None? <==> result == Ok(true)
  {
    match result
    case Raised(message) => Some(message)
    case Ok(updated) => if updated then None else Some(SaleUpdateFailed)
  }

  // ---------------------------------------------------------------- handlers

  class CreateSaleCommandHandler {
    const saleRepository: SaleRepository
    const eventPublisher: EventPublisher

    constructor (saleRepository: SaleRepository, eventPublisher: EventPublisher)
      ensures this.saleRepository == saleRepository && this.eventPublisher == eventPublisher
    {
      this.saleRepository := saleRepository;
      this.eventPublisher := eventPublisher;
    }

    /**
     * An invalid command gets its validation messages and touches nothing. A valid
     * one is inserted as `NewSale`; once committed, exactly one SaleCreatedEvent
     * carrying the new id is published and the response carries the sale. An
     * exception from the insert or the publish becomes an error response; a failed
     * insert publishes nothing, a failed publish leaves the sale committed.
     */
    method Handle(request: CreateSaleCommand, guid: GuidText, insertFault: Option<Fault>, publishFault: Option<string>)
      returns (response: BaseResponse<Sale>)
      requires saleRepository.Valid()
      modifies saleRepository, eventPublisher
      ensures saleRepository.Valid()
      ensures ValidateCreateSale(request) != [] ==>
        && response == WithValidationErrors(ValidateCreateSale(request))
        && unchanged(saleRepository) && unchanged(eventPublisher)
      ensures ValidateCreateSale(request) == [] && InsertFailure(old(saleRepository.connectionOpen), insertFault).Some? ==>
        && response == WithErrorMessage(InsertFailure(old(saleRepository.connectionOpen), insertFault).value)
        && saleRepository.sales == old(saleRepository.sales) && saleRepository.items == old(saleRepository.items)
        && eventPublisher.published == old(eventPublisher.published)
      ensures ValidateCreateSale(request) == [] && InsertFailure(old(saleRepository.connectionOpen), insertFault).None? ==>
        var sale := InsertedAs(NewSale(request, guid), old(saleRepository.nextSaleId));
        && saleRepository.sales == old(saleRepository.sales)[sale.id := SaleRow(sale)]
        && saleRepository.items == old(saleRepository.items) + ItemRows(sale.items, old(saleRepository.nextItemId))
        && eventPublisher.published
           == old(eventPublisher.published) + (if publishFault.None? then [SaleCreatedEvent(EventDataOf(sale))] else [])
        && response == (if publishFault.None? then WithData(sale) else WithErrorMessage(publishFault.value))
        && saleRepository.nextSaleId == old(saleRepository.nextSaleId) + 1
        && saleRepository.nextItemId == old(saleRepository.nextItemId) + |request.items|
      ensures ValidateCreateSale(request) == [] ==>
        && (saleRepository.connectionOpen <==> old(saleRepository.connectionOpen) || FailsAt(insertFault, BeginTransaction))
        && old(saleRepository.nextSaleId) <= saleRepository.nextSaleId
        && old(saleRepository.nextItemId) <= saleRepository.nextItemId
    {
      var errors := ValidateCreateSale(request);
      if errors != [] {
        return WithValidationErrors(errors);
      }
      var sale := NewSale(request, guid);
      var inserted;
      inserted, sale := saleRepository.InsertAsync(sale, insertFault);
      if inserted.Raised? {
        return WithErrorMessage(inserted.message);
      }
      var raised := eventPublisher.PublishAsync(SaleCreatedEvent(EventDataOf(sale)), publishFault);
      if raised.Some? {
        return WithErrorMessage(raised.value);
      }
      response := WithData(sale);
    }
  }

  class UpdateSaleCommandHandler {
    const saleRepository: SaleRepository
    const eventPublisher: EventPublisher

    constructor (saleRepository: SaleRepository, eventPublisher: EventPublisher)
      ensures this.saleRepository == saleRepository && this.eventPublisher == eventPublisher
    {
      this.saleRepository := saleRepository;
      this.eventPublisher := eventPublisher;
    }

    /**
     * An invalid command gets its validation messages, an unknown id "Sale not
     * found."; neither touches anything. Otherwise the fetched sale is overwritten
     * as `Overwritten` says and written back; after a committed update exactly one
     * event is published, chosen by the final status, and the response carries the
     * sale. A failed update publishes nothing.
     */
    method Handle(request: UpdateSaleCommand, updateFault: Option<Fault>, publishFault: Option<string>)
      returns (response: BaseResponse<Sale>)
      requires saleRepository.Valid()
      modifies saleRepository, eventPublisher
      ensures saleRepository.Valid()
      ensures ValidateUpdateSale(request) != [] ==>
        && response == WithValidationErrors(ValidateUpdateSale(request))
        && unchanged(saleRepository) && unchanged(eventPublisher)
      ensures ValidateUpdateSale(request) == [] && request.id !in old(saleRepository.sales) ==>
        && response == WithErrorMessage(SaleNotFound)
        && unchanged(saleRepository) && unchanged(eventPublisher)
      ensures ValidateUpdateSale(request) == [] && request.id in old(saleRepository.sales) ==>
        var sale := Overwritten(old(saleRepository.sales)[request.id], request);
        var failure := UpdateAsyncFailure(old(saleRepository.connectionOpen), updateFault, true, |sale.items|);
        && (failure.Some? ==>
              && response == WithErrorMessage(failure.value)
              && saleRepository.sales == old(saleRepository.sales) && saleRepository.items == old(saleRepository.items)
              && eventPublisher.published == old(eventPublisher.published))
        && (failure.None? ==>
              var written := sale.(items := Numbered(Stamp(sale.items, sale.id), old(saleRepository.nextItemId)));
              && saleRepository.sales == old(saleRepository.sales)[sale.id := SaleRow(sale)]
              && saleRepository.items
                 == ItemsNotOf(old(saleRepository.items), sale.id) + ItemRows(Stamp(sale.items, sale.id), old(saleRepository.nextItemId))
              && eventPublisher.published
                 == old(eventPublisher.published) + (if publishFault.None? then [UpdateEvent(written)] else [])
              && response == (if publishFault.None? then WithData(written) else WithErrorMessage(publishFault.value))
              && saleRepository.nextSaleId == old(saleRepository.nextSaleId)
              && saleRepository.nextItemId == old(saleRepository.nextItemId) + |sale.items|)
      ensures ValidateUpdateSale(request) == [] && request.id in old(saleRepository.sales) ==>
        && (saleRepository.connectionOpen <==> old(saleRepository.connectionOpen) || FailsAt(updateFault, BeginTransaction))
        && old(saleRepository.nextSaleId) <= saleRepository.nextSaleId
        && old(saleRepository.nextItemId) <= saleRepository.nextItemId
    {
      var errors := ValidateUpdateSale(request);
      if errors != [] {
        return WithValidationErrors(errors);
      }
      var fetched := saleRepository.GetById(request.id);
      if fetched.None? {
        return WithErrorMessage(SaleNotFound);
      }
      var sale := Overwrite(fetched.value, request);
      response := SaveAndAnnounce(sale, updateFault, publishFault);
    }

    /** The field-by-field overwrite of the fetched sale, one statement per optional field. */
    static method Overwrite(fetched: Sale, request: UpdateSaleCommand) returns (sale: Sale)
      ensures sale == Overwritten(fetched, request)
    {
      sale := fetched;
      if request.saleDate.Some? {
        sale := sale.(saleDate := request.saleDate.value);
      }
      if request.customerId.Some? {
        sale := sale.(customerId := request.customerId.value);
      }
      if request.branchId.Some? {
        sale := sale.(branchId := request.branchId.value);
      }
      if request.saleStatus.Some? {
        sale := sale.(saleStatus := request.saleStatus.value);
      }
      if request.items != [] {
        var items := BuildItems(request.items);
        sale := sale.(items := items, totalSaleValue := SumOfItemTotals(items));
      }
    }

    /**
     * The part of `Handle` after the overwrite, for a sale that exists: write it
     * back; when the update committed, publish one event chosen by the final status
     * and answer with the written sale.
     */
    method SaveAndAnnounce(sale: Sale, updateFault: Option<Fault>, publishFault: Option<string>)
      returns (response: BaseResponse<Sale>)
      requires saleRepository.Valid() && sale.id in saleRepository.sales
      modifies saleRepository, eventPublisher
      ensures saleRepository.Valid()
      ensures
        var failure := UpdateAsyncFailure(old(saleRepository.connectionOpen), updateFault, true, |sale.items|);
        && (failure.Some? ==>
              && response == WithErrorMessage(failure.value)
              && saleRepository.sales == old(saleRepository.sales) && saleRepository.items == old(saleRepository.items)
              && eventPublisher.published == old(eventPublisher.published))
        && (failure.None? ==>
              var written := sale.(items := Numbered(Stamp(sale.items, sale.id), old(saleRepository.nextItemId)));
              && saleRepository.sales == old(saleRepository.sales)[sale.id := SaleRow(sale)]
              && saleRepository.items
                 == ItemsNotOf(old(saleRepository.items), sale.id) + ItemRows(Stamp(sale.items, sale.id), old(saleRepository.nextItemId))
              && eventPublisher.published
                 == old(eventPublisher.published) + (if publishFault.None? then [UpdateEvent(written)] else [])
              && response == (if publishFault.None? then WithData(written) else WithErrorMessage(publishFault.value))
              && saleRepository.nextSaleId == old(saleRepository.nextSaleId)
              && saleRepository.nextItemId == old(saleRepository.nextItemId) + |sale.items|)
      ensures saleRepository.connectionOpen <==> old(saleRepository.connectionOpen) || FailsAt(updateFault, BeginTransaction)
      ensures old(saleRepository.nextSaleId) <= saleRepository.nextSaleId
      ensures old(saleRepository.nextItemId) <= saleRepository.nextItemId
    {
      var updated, written := saleRepository.UpdateAsync(sale, updateFault);
      var error := UpdateError(updated);
      if error.Some? {
        return WithErrorMessage(error.value);
      }
      var raised := eventPublisher.PublishAsync(UpdateEvent(written), publishFault);
      if raised.Some? {
        return WithErrorMessage(raised.value);
      }
      response := WithData(written);
    }
  }
}
