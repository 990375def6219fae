/**
 * `GetProductsSpecification`: the query builder behind the product listing. It
 * follows the same steps as the sale builder, over the product table: an id
 * filter, a name filter matched with LIKE, and a price filter that is active only
 * for a positive price.
 */
module ProductsSpecification {
  import opened Common
  import opened Domain
  import opened SqlText

  /** The filters, ordering and paging a caller may ask for. The price is not optional: 0 means "any". */
  datatype GetProductsSpecificationContract = GetProductsSpecificationContract(
    id: Option<int>,
    productName: Option<string>,
    unitPrice: Decimal,
    skip: Option<int>,
    take: Option<int>,
    orderingFields: Option<seq<OrderingField>>)

  /** The LIKE pattern for a name: the name anywhere in the product name. */
  function ContainsPattern(name: string): string {
    "%" + name + "%"
  }

  /**
   * The name filter is active only for a name that is neither null nor empty, and
   * then binds the name wrapped in `%` wildcards on both sides.
   */
  function NameParameter(name: Option<string>): (r: Option<SqlValue>)
    ensures r.Some? <==> name.Some? && name.value != ""
    ensures r.Some? ==> r.value.TextValue? && |r.value.t| == |name.value| + 2
    ensures r.Some? ==> r.value.t[0] == '%' && r.value.t[|r.value.t| - 1] == '%'
    ensures r.Some? ==> r.value.t[1..|r.value.t| - 1] == name.value
  {
    if name.Some? && name.value != "" then Some(TextValue(ContainsPattern(name.value))) else None
  }

  /** The price filter is active only for a positive price, and then binds that price. */
  function PriceParameter(unitPrice: Decimal): (r: Option<SqlValue>)
    ensures r.Some? <==> unitPrice > 0.0
    ensures r.Some? ==> r.value.DecimalValue? && r.value.x == unitPrice
  {
    if unitPrice > 0.0 then Some(DecimalValue(unitPrice)) else None
  }

  /**
   * The three filters, in the order the constructor applies them. Each is active
   * exactly when its contract field passes its test, and no two share a parameter name.
   */
  function ProductFilters(c: GetProductsSpecificationContract): (r: seq<FilterRequest>)
    ensures |r| == 3
    ensures r[0].value.Some? <==> c.id.Some?
    ensures r[1].value.Some? <==> c.productName.Some? && c.productName.value != ""
    ensures r[2].value.Some? <==> c.unitPrice > 0.0
    ensures forall i, j :: 0 <= i < j < |r| ==> r[i].name != r[j].name
  {
    [ FilterRequest("p.Id", "=", "Id", LongParameter(c.id)),
      FilterRequest("p.ProductName", "LIKE", "ProductName", NameParameter(c.productName)),
      FilterRequest("p.UnitPrice", "=", "UnitPrice", PriceParameter(c.unitPrice)) ]
  }

  /** The fields a caller may sort by. */
  const ProductOrderingFields: seq<string> := ["ProductName", "UnitPrice", "Id"]

  /** The lines every product query starts with. */
  const ProductSelectLines: seq<string> := ["SELECT p.*", "FROM Product p"]

  /** The ordering used for paging when no requested term survived. */
  const ProductFallbackOrder := "ORDER BY p.Id"

  /** A field may be sorted by exactly when it is one of the three allowed names (case-sensitive). */
  function IsValidOrderingField(fieldName: string): (r: bool)
    ensures r <==> fieldName == "ProductName" || fieldName == "UnitPrice" || fieldName == "Id"
    ensures r <==> fieldName in ProductOrderingFields
  {
    AnyEquals(ProductOrderingFields, fieldName)
  }

  /** Filter names are pairwise distinct, and so are their predicates. */
  lemma ProductFiltersDistinct(c: GetProductsSpecificationContract)
    ensures DistinctFilters(ProductFilters(c))
  {
    var rs := ProductFilters(c);
    forall i, j | 0 <= i < j < |rs| ensures rs[i].name != rs[j].name && rs[i].Predicate() != rs[j].Predicate() {
      assert rs[i].name[0] != rs[j].name[0];
      var pi, pj := rs[i].Predicate(), rs[j].Predicate();
      assert pi[2] != pj[2];
    }
  }

  /**
   * The id filter is active exactly when an id is given, the name filter exactly
   * for a non-empty name (bound to `%name%`), the price filter exactly for a
   * positive price (bound to that price).
   */
  lemma ProductFilterEffects(c: GetProductsSpecificationContract)
    ensures var cs, ps := ConditionsOf(ProductFilters(c)), ParametersOf(ProductFilters(c));
      && ("p.Id = @Id" in cs <==> c.id.Some?) && ("Id" in ps <==> c.id.Some?)
      && (c.id.Some? ==> ps["Id"] == LongValue(c.id.value))
      && ("p.ProductName LIKE @ProductName" in cs <==> c.productName.Some? && c.productName.value != "")
      && ("ProductName" in ps <==> c.productName.Some? && c.productName.value != "")
      && (c.productName.Some? && c.productName.value != "" ==>
            ps["ProductName"] == TextValue("%" + c.productName.value + "%"))
      && ("p.UnitPrice = @UnitPrice" in cs <==> c.unitPrice > 0.0) && ("UnitPrice" in ps <==> c.unitPrice > 0.0)
      && (c.unitPrice > 0.0 ==> ps["UnitPrice"] == DecimalValue(c.unitPrice))
  {
    var rs := ProductFilters(c);
    ProductFiltersDistinct(c);
    FilterEffect(rs, 0);
    assert rs[0].Predicate() == "p.Id = @Id";
    FilterEffect(rs, 1);
    assert rs[1].Predicate() == "p.ProductName LIKE @ProductName";
    FilterEffect(rs, 2);
    assert rs[2].Predicate() == "p.UnitPrice = @UnitPrice";
  }

  class GetProductsSpecification {
    var conditions: seq<string>
    var parameters: map<string, SqlValue>
    var orderByFields: seq<string>
    var skip: Option<int>
    var take: Option<int>

    /** Applies the three filters, then the ordering, then the paging window of the contract. */
    constructor (contract: GetProductsSpecificationContract)
      ensures conditions == ConditionsOf(ProductFilters(contract))
      ensures parameters == ParametersOf(ProductFilters(contract))
      ensures orderByFields == OrderTerms(contract.orderingFields.GetOr([]), ProductOrderingFields)
      ensures skip == contract.skip && take == contract.take
    {
      conditions, parameters, orderByFields := [], map[], [];
      skip, take := None, None;
      new;
      var rs := ProductFilters(contract);
      assert rs[..0] == [];
      // the three chained `With…` calls, one per filter of the table, in its order
      for k := 0 to 3
        invariant conditions == ConditionsOf(rs[..k]) && parameters == ParametersOf(rs[..k])
        invariant orderByFields == [] && skip == None && take == None
      {
        FilterStep(rs, k);
        With(rs[k]);
      }
      assert rs[..3] == rs;
      WithOrdering(contract.orderingFields);
      WithPagination(contract.skip, contract.take);
    }

    /**
     * One `With…` filter step: when the filter is active, its predicate is added to
     * the conditions and its value bound to its name; nothing else changes.
     */
    method With(r: FilterRequest)
      modifies this
      ensures conditions == old(conditions) + (if r.value.Some? then [r.Predicate()] else [])
      ensures parameters == if r.value.Some? then old(parameters)[r.name := r.value.value] else old(parameters)
      ensures orderByFields == old(orderByFields) && skip == old(skip) && take == old(take)
    {
      if r.value.Some? {
        conditions := conditions + [r.Predicate()];
        parameters := parameters[r.name := r.value.value];
      } else {
        assert conditions == conditions + [];
      }
    }

    /** Appends one term per requested field on the allow-list, in request order. */
    method WithOrdering(orderingFields: Option<seq<OrderingField>>)
      modifies this
      ensures orderByFields == old(orderByFields) + OrderTerms(orderingFields.GetOr([]), ProductOrderingFields)
      ensures conditions == old(conditions) && parameters == old(parameters)
      ensures skip == old(skip) && take == old(take)
    {
      if orderingFields.Some? && |orderingFields.value| > 0 {
        var fields := orderingFields.value;
        var i := 0;
        while i < |fields|
          invariant 0 <= i <= |fields|
          invariant orderByFields == old(orderByFields) + OrderTerms(fields[..i], ProductOrderingFields)
          invariant conditions == old(conditions) && parameters == old(parameters)
          invariant skip == old(skip) && take == old(take)
        {
          assert fields[..i + 1][..i] == fields[..i];
          if IsValidOrderingField(fields[i].fieldName) {
            orderByFields := orderByFields + [OrderTerm(fields[i])];
          }
          i := i + 1;
        }
        assert fields[..i] == fields;
      } else {
        assert OrderTerms(orderingFields.GetOr([]), ProductOrderingFields) == [];
        assert orderByFields == orderByFields + [];
      }
    }

    /** Records the paging window as given. */
    method WithPagination(skip': Option<int>, take': Option<int>)
      modifies this
      ensures skip == skip' && take == take'
      ensures conditions == old(conditions) && parameters == old(parameters) && orderByFields == old(orderByFields)
    {
      skip, take := skip', take';
    }

    /** The statement: the fixed lines, then the clauses the collected state calls for. */
    method ToSqlQuery() returns (sql: string)
      ensures sql == Text(Statement(ProductSelectLines, Clauses(ProductFallbackOrder, conditions, orderByFields, skip, take)))
    {
      ghost var lines: seq<string> := [];
      sql := "";
      sql := AppendLine(sql, lines, "SELECT p.*");
      lines := lines + ["SELECT p.*"];
      sql := AppendLine(sql, lines, "FROM Product p");
      lines := lines + ["FROM Product p"];
      assert lines == ProductSelectLines;
      sql := AppendClauses(sql, lines, ProductFallbackOrder, conditions, orderByFields, skip, take);
    }

    /** The parameter bag handed to the query runner. */
    function Parameters(): (r: map<string, SqlValue>)
      reads this
      ensures r == parameters
    {
      parameters
    }
  }
}
