/**
 * The product table behind `IProductRepository`, with the semantics of the
 * generic Dapper.Contrib repository: an insert takes the next identity value and
 * writes it back into the entity, an update or a delete reports whether a row
 * with that key existed. `fault` is the exception the database raises, if any;
 * a raising call changes nothing.
 */
module ProductPersistence {
  import opened Common
  import opened Domain

  class ProductRepository {
    /** The rows of the Product table by key. */
    var products: map<int, Product>
    /** The identity value the next insert takes. */
    var nextProductId: int

    /** Keys are positive identity values already handed out, and every row carries its key. */
    ghost predicate Valid()
      reads this
    {
      && nextProductId > 0
      && forall id :: id in products ==> 0 < id < nextProductId && products[id].id == id
    }

    constructor ()
      ensures Valid() && products == map[] && nextProductId == 1
    {
      products, nextProductId := map[], 1;
    }

    /** `GetByIdAsync`: the row with that key, or null. */
    function GetByIdAsync(id: int): (r: Option<Product>)
      reads this
      requires Valid()
      ensures r.Some? <==> id in products
      ensures r.Some? ==> r.value.id == id && r.value == products[id]
    {
      if id in products then Some(products[id]) else None
    }

    /**
     * `InsertAsync`: a new row under a key no row had, written back into the
     * entity; every existing row stays as it was.
     */
    method InsertAsync(product: Product, fault: Option<string>) returns (result: Outcome<int>, written: Product)
      requires Valid()
      modifies this
      ensures Valid()
      ensures fault.Some? ==>
        && result == Raised(fault.value) && written == product
        && products == old(products) && nextProductId == old(nextProductId)
      ensures fault.None? ==>
        && result == Ok(old(nextProductId)) && written == product.(id := old(nextProductId))
        && written.id !in old(products)
        && products == old(products)[written.id := written]
        && GetByIdAsync(written.id) == Some(written)
        && nextProductId == old(nextProductId) + 1
    {
      written := product;
      if fault.Some? {
        return Raised(fault.value), written;
      }
      written := product.(id := nextProductId);
      products := products[written.id := written];
      nextProductId := nextProductId + 1;
      result := Ok(written.id);
    }

    /**
     * `UpdateAsync`: overwrites the row with the entity's key and answers whether
     * there was one; without one, nothing changes.
     */
    method UpdateAsync(product: Product, fault: Option<string>) returns (result: Outcome<bool>)
      requires Valid()
      modifies this
      ensures Valid() && nextProductId == old(nextProductId)
      ensures fault.Some? ==> result == Raised(fault.value) && products == old(products)
      ensures fault.None? ==>
        && result == Ok(product.id in old(products))
        && products == (if product.id in old(products) then old(products)[product.id := product] else old(products))
        && GetByIdAsync(product.id) == (if product.id in old(products) then Some(product) else None)
    {
      if fault.Some? {
        return Raised(fault.value);
      }
      if product.id in products {
        products := products[product.id := product];
        result := Ok(true);
      } else {
        result := Ok(false);
      }
    }

    /**
     * `DeleteByIdAsync`: false when no row has the key, otherwise the row is
     * deleted and the answer is true. Either way no row has the key afterwards.
     */
    method DeleteByIdAsync(id: int, fault: Option<string>) returns (result: Outcome<bool>)
      requires Valid()
      modifies this
      ensures Valid() && nextProductId == old(nextProductId)
      ensures fault.Some? ==> result == Raised(fault.value) && products == old(products)
      ensures fault.None? ==>
        && result == Ok(id in old(products))
        && products == old(products) - {id}
        && GetByIdAsync(id) == None
    {
      if fault.Some? {
        return Raised(fault.value);
      }
      var entity := GetByIdAsync(id);
      if entity.None? {
        assert products == products - {id};
        return Ok(false);
      }
      products := products - {entity.value.id};
      result := Ok(true);
    }
  }
}
