/**
 * The product command handlers: validate, build the `Product`, call the
 * repository once, and turn a `false` answer or an exception into an error
 * response.
 */
module ProductCommands {
  import opened Common
  import opened Domain
  import opened Commands
  import opened Validators
  import opened Responses
  import opened ProductPersistence

  const ProductUpdateFailed := "Error while Update Product."
  const ProductDeleteFailed := "Error while Delete Product."

  class CreateProductCommandHandler {
    const productRepository: ProductRepository

    constructor (productRepository: ProductRepository)
      ensures this.productRepository == productRepository
    {
      this.productRepository := productRepository;
    }

    /**
     * An invalid command gets its validation messages and inserts nothing. A valid
     * one inserts a product with the command's name and price under a new key and
     * answers with it, key included.
     */
    method Handle(request: CreateProductCommand, insertFault: Option<string>) returns (response: BaseResponse<Product>)
      requires productRepository.Valid()
      modifies productRepository
      ensures productRepository.Valid()
      ensures ValidateCreateProduct(request) != [] ==>
        response == WithValidationErrors(ValidateCreateProduct(request)) && unchanged(productRepository)
      ensures ValidateCreateProduct(request) == [] && insertFault.Some? ==>
        response == WithErrorMessage(insertFault.value) && productRepository.products == old(productRepository.products)
      ensures ValidateCreateProduct(request) == [] && insertFault.None? ==>
        var product := Product(old(productRepository.nextProductId), request.productName, request.unitPrice);
        && product.id !in old(productRepository.products)
        && productRepository.products == old(productRepository.products)[product.id := product]
        && response == WithData(product)
      ensures productRepository.nextProductId ==
        old(productRepository.nextProductId) + (if ValidateCreateProduct(request) == [] && insertFault.None? then 1 else 0)
    {
      var errors := ValidateCreateProduct(request);
      if errors != [] {
        return WithValidationErrors(errors);
      }
      var product := Product(0, request.productName, request.unitPrice);
      var inserted;
      inserted, product := productRepository.InsertAsync(product, insertFault);
      if inserted.Raised? {
        return WithErrorMessage(inserted.message);
      }
      response := WithData(product);
    }
  }

  class UpdateProductCommandHandler {
    /** The injected `IValidator<UpdateProductCommand>`: its messages, empty when the command is valid. */
    const validator: UpdateProductCommand -> seq<string>
    const productRepository: ProductRepository

    constructor (validator: UpdateProductCommand -> seq<string>, productRepository: ProductRepository)
      ensures this.validator == validator && this.productRepository == productRepository
    {
      this.validator := validator;
      this.productRepository := productRepository;
    }

    /**
     * A valid command overwrites the product with that key and answers with the
     * product as requested; an unknown key changes nothing and gets "Error while
     * Update Product.".
     */
    method Handle(request: UpdateProductCommand, updateFault: Option<string>) returns (response: BaseResponse<Product>)
      requires productRepository.Valid()
      modifies productRepository
      ensures productRepository.Valid()
      ensures validator(request) != [] ==>
        response == WithValidationErrors(validator(request)) && unchanged(productRepository)
      ensures validator(request) == [] && updateFault.Some? ==>
        response == WithErrorMessage(updateFault.value) && productRepository.products == old(productRepository.products)
      ensures validator(request) == [] && updateFault.None? ==>
        var product := Product(request.id, request.productName, request.unitPrice);
        if request.id in old(productRepository.products) then
          && productRepository.products == old(productRepository.products)[request.id := product]
          && response == WithData(product)
        else
          && productRepository.products == old(productRepository.products)
          && response == WithErrorMessage(ProductUpdateFailed)
      ensures productRepository.nextProductId == old(productRepository.nextProductId)
    {
      var errors := validator(request);
      if errors != [] {
        return WithValidationErrors(errors);
      }
      var product := Product(request.id, request.productName, request.unitPrice);
      var updated := productRepository.UpdateAsync(product, updateFault);
      if updated.Raised? {
        return WithErrorMessage(updated.message);
      }
      if !updated.value {
        return WithErrorMessage(ProductUpdateFailed);
      }
      response := WithData(product);
    }
  }

  class DeleteProductCommandHandler {
    const productRepository: ProductRepository

    constructor (productRepository: ProductRepository)
      ensures this.productRepository == productRepository
    {
      this.productRepository := productRepository;
    }

    /**
     * A valid command removes the product with that key and answers `true`; an
     * unknown key gets "Error while Delete Product.". No row has the key afterwards.
     */
    method Handle(request: DeleteProductCommand, deleteFault: Option<string>) returns (response: BaseResponse<bool>)
      requires productRepository.Valid()
      modifies productRepository
      ensures productRepository.Valid()
      ensures ValidateDeleteProduct(request) != [] ==>
        response == WithValidationErrors([ProductIdPositive]) && unchanged(productRepository)
      ensures ValidateDeleteProduct(request) == [] && deleteFault.Some? ==>
        response == WithErrorMessage(deleteFault.value) && productRepository.products == old(productRepository.products)
      ensures ValidateDeleteProduct(request) == [] && deleteFault.None? ==>
        && productRepository.products == old(productRepository.products) - {request.id}
        && response == (if request.id in old(productRepository.products) then WithData(true) else WithErrorMessage(ProductDeleteFailed))
      ensures productRepository.nextProductId == old(productRepository.nextProductId)
    {
      var errors := ValidateDeleteProduct(request);
      if errors != [] {
        return WithValidationErrors(errors);
      }
      var deleted := productRepository.DeleteByIdAsync(request.id, deleteFault);
      if deleted.Raised? {
        return WithErrorMessage(deleted.message);
      }
      if !deleted.value {
        return WithErrorMessage(ProductDeleteFailed);
      }
      response := WithData(true);
    }
  }
}
