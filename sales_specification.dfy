/**
 * `GetSalesSpecification`: the query builder behind the sale listing. Its
 * constructor records one condition and one parameter per present filter of the
 * contract, the allowed ordering terms and the paging window; `ToSqlQuery` lays
 * them out after the fixed SELECT/FROM/JOIN lines.
 */
module SalesSpecification {
  import opened Common
  import opened Domain
  import opened SqlText

  /** The filters, ordering and paging a caller may ask for; every filter is optional. */
  datatype GetSalesSpecificationContract = GetSalesSpecificationContract(
    id: Option<int>,
    customerId: Option<int>,
    branchId: Option<int>,
    saleDateFrom: Option<DateTime>,
    saleDateTo: Option<DateTime>,
    saleStatus: Option<SaleStatus>,
    minTotalSaleValue: Option<Decimal>,
    maxTotalSaleValue: Option<Decimal>,
    skip: Option<int>,
    take: Option<int>,
    orderingFields: Option<seq<OrderingField>>)

  /**
   * The eight filters, in the order the constructor applies them. Each is active
   * exactly when its contract field is set, and no two share a parameter name.
   */
  function SaleFilters(c: GetSalesSpecificationContract): (r: seq<FilterRequest>)
    ensures |r| == 8
    ensures r[0].value.Some? <==> c.id.Some?
    ensures r[1].value.Some? <==> c.customerId.Some?
    ensures r[2].value.Some? <==> c.branchId.Some?
    ensures r[3].value.Some? <==> c.saleDateFrom.Some?
    ensures r[4].value.Some? <==> c.saleDateTo.Some?
    ensures r[5].value.Some? <==> c.saleStatus.Some?
    ensures r[6].value.Some? <==> c.minTotalSaleValue.Some?
    ensures r[7].value.Some? <==> c.maxTotalSaleValue.Some?
    ensures forall i, j :: 0 <= i < j < |r| ==> r[i].name != r[j].name
  {
    [ FilterRequest("s.Id", "=", "Id", LongParameter(c.id)),
      FilterRequest("s.CustomerId", "=", "CustomerId", LongParameter(c.customerId)),
      FilterRequest("s.BranchId", "=", "BranchId", LongParameter(c.branchId)),
      FilterRequest("s.SaleDate", ">=", "SaleDateFrom", DateParameter(c.saleDateFrom)),
      FilterRequest("s.SaleDate", "<=", "SaleDateTo", DateParameter(c.saleDateTo)),
      FilterRequest("s.SaleStatus", "=", "SaleStatus", StatusParameter(c.saleStatus)),
      FilterRequest("s.TotalSaleValue", ">=", "MinTotalSaleValue", DecimalParameter(c.minTotalSaleValue)),
      FilterRequest("s.TotalSaleValue", "<=", "MaxTotalSaleValue", DecimalParameter(c.maxTotalSaleValue)) ]
  }

  /** The fields a caller may sort by. */
  const SaleOrderingFields: seq<string> := ["SaleDate", "TotalSaleValue", "SaleNumber", "Id"]

  /** The lines every sale query starts with: sales joined with their customer, branch and items. */
  const SaleSelectLines: seq<string> := [
    "SELECT s.*, c.*, b.*, si.*",
    "FROM Sale s",
    "INNER JOIN Customer c ON s.CustomerId = c.Id",
    "INNER JOIN Branch b ON s.BranchId = b.Id",
    "INNER JOIN SaleItem si ON s.Id = si.SaleId"]

  /** The ordering used for paging when no requested term survived. */
  const SaleFallbackOrder := "ORDER BY s.Id"

  /** A field may be sorted by exactly when it is one of the four allowed names (case-sensitive). */
  function IsValidOrderingField(fieldName: string): (r: bool)
    ensures r <==> fieldName == "SaleDate" || fieldName == "TotalSaleValue" || fieldName == "SaleNumber" || fieldName == "Id"
    ensures r <==> fieldName in SaleOrderingFields
  {
    AnyEquals(SaleOrderingFields, fieldName)
  }

  /** Filter names are pairwise distinct, and so are their predicates. */
  lemma SaleFiltersDistinct(c: GetSalesSpecificationContract)
    ensures DistinctFilters(SaleFilters(c))
  {
    var rs := SaleFilters(c);
    forall i, j | 0 <= i < j < |rs| ensures rs[i].name != rs[j].name && rs[i].Predicate() != rs[j].Predicate() {
      var pi, pj := rs[i].Predicate(), rs[j].Predicate();
      assert pi[|pi| - |rs[i].name|..] == rs[i].name;
      assert pj[|pj| - |rs[j].name|..] == rs[j].name;
    }
  }

  /**
   * Each filter of the contract adds its predicate and binds its parameter exactly
   * when its value is present, and the parameter then holds that value.
   */
  lemma SaleFilterEffect(c: GetSalesSpecificationContract, k: nat)
    requires k < |SaleFilters(c)|
    ensures var r, cs, ps := SaleFilters(c)[k], ConditionsOf(SaleFilters(c)), ParametersOf(SaleFilters(c));
      && (r.Predicate() in cs <==> r.value.Some?)
      && (r.name in ps <==> r.value.Some?)
      && (r.value.Some? ==> ps[r.name] == r.value.value)
  {
    SaleFiltersDistinct(c);
    FilterEffect(SaleFilters(c), k);
  }

  /** A WHERE line is written exactly when at least one filter of the contract is present. */
  lemma SaleQueryHasWhere(c: GetSalesSpecificationContract)
    ensures ConditionsOf(SaleFilters(c)) != [] <==>
      c.id.Some? || c.customerId.Some? || c.branchId.Some? || c.saleDateFrom.Some? || c.saleDateTo.Some?
      || c.saleStatus.Some? || c.minTotalSaleValue.Some? || c.maxTotalSaleValue.Some?
  {
    var rs := SaleFilters(c);
    var cs := ConditionsOf(rs);
    var anyPresent := exists k :: 0 <= k < |rs| && rs[k].value.Some?;
    if cs != [] {
      ConditionsOfMeaning(rs, cs[0]);
    }
    if anyPresent {
      var k :| 0 <= k < |rs| && rs[k].value.Some?;
      ConditionsOfMeaning(rs, rs[k].Predicate());
    }
    assert anyPresent <==> rs[0].value.Some? || rs[1].value.Some? || rs[2].value.Some? || rs[3].value.Some?
                           || rs[4].value.Some? || rs[5].value.Some? || rs[6].value.Some? || rs[7].value.Some?;
  }

  class GetSalesSpecification {
    var conditions: seq<string>
    var parameters: map<string, SqlValue>
    var orderByFields: seq<string>
    var skip: Option<int>
    var take: Option<int>

    /** Applies the eight filters, then the ordering, then the paging window of the contract. */
    constructor (contract: GetSalesSpecificationContract)
      ensures conditions == ConditionsOf(SaleFilters(contract))
      ensures parameters == ParametersOf(SaleFilters(contract))
      ensures orderByFields == OrderTerms(contract.orderingFields.GetOr([]), SaleOrderingFields)
      ensures skip == contract.skip && take == contract.take
    {
      conditions, parameters, orderByFields := [], map[], [];
      skip, take := None, None;
      new;
      var rs := SaleFilters(contract);
      assert rs[..0] == [];
      // the eight chained `With…` calls, one per filter of the table, in its order
      for k := 0 to 8
        invariant conditions == ConditionsOf(rs[..k]) && parameters == ParametersOf(rs[..k])
        invariant orderByFields == [] && skip == None && take == None
      {
        FilterStep(rs, k);
        With(rs[k]);
      }
      assert rs[..8] == rs;
      WithOrdering(contract.orderingFields);
      WithPagination(contract.skip, contract.take);
    }

    /**
     * One `With…` filter step: when the filter's value is present, its predicate is
     * added to the conditions and its value bound to its name; nothing else changes.
     */
    method With(r: FilterRequest)
      modifies this
      ensures conditions == old(conditions) + (if r.value.Some? then [r.Predicate()] else [])
      ensures parameters == if r.value.Some? then old(parameters)[r.name := r.value.value] else old(parameters)
      ensures orderByFields == old(orderByFields) && skip == old(skip) && take == old(take)
    {
      if r.value.Some? {
        conditions := conditions + [r.Predicate()];
        parameters := parameters[r.name := r.value.value];
      } else {
        assert conditions == conditions + [];
      }
    }

    /** Appends one term per requested field on the allow-list, in request order. */
    method WithOrdering(orderingFields: Option<seq<OrderingField>>)
      modifies this
      ensures orderByFields == old(orderByFields) + OrderTerms(orderingFields.GetOr([]), SaleOrderingFields)
      ensures conditions == old(conditions) && parameters == old(parameters)
      ensures skip == old(skip) && take == old(take)
    {
      if orderingFields.Some? && |orderingFields.value| > 0 {
        var fields := orderingFields.value;
        var i := 0;
        while i < |fields|
          invariant 0 <= i <= |fields|
          invariant orderByFields == old(orderByFields) + OrderTerms(fields[..i], SaleOrderingFields)
          invariant conditions == old(conditions) && parameters == old(parameters)
          invariant skip == old(skip) && take == old(take)
        {
          assert fields[..i + 1][..i] == fields[..i];
          if IsValidOrderingField(fields[i].fieldName) {
            orderByFields := orderByFields + [OrderTerm(fields[i])];
          }
          i := i + 1;
        }
        assert fields[..i] == fields;
      } else {
        assert OrderTerms(orderingFields.GetOr([]), SaleOrderingFields) == [];
        assert orderByFields == orderByFields + [];
      }
    }

    /** Records the paging window as given. */
    method WithPagination(skip': Option<int>, take': Option<int>)
      modifies this
      ensures skip == skip' && take == take'
      ensures conditions == old(conditions) && parameters == old(parameters) && orderByFields == old(orderByFields)
    {
      skip, take := skip', take';
    }

    /** The statement: the fixed lines, then the clauses the collected state calls for. */
    method ToSqlQuery() returns (sql: string)
      ensures sql == Text(Statement(SaleSelectLines, Clauses(SaleFallbackOrder, conditions, orderByFields, skip, take)))
    {
      ghost var lines: seq<string> := [];
      sql := "";
      sql := AppendLine(sql, lines, "SELECT s.*, c.*, b.*, si.*");
      lines := lines + ["SELECT s.*, c.*, b.*, si.*"];
      sql := AppendLine(sql, lines, "FROM Sale s");
      lines := lines + ["FROM Sale s"];
      sql := AppendLine(sql, lines, "INNER JOIN Customer c ON s.CustomerId = c.Id");
      lines := lines + ["INNER JOIN Customer c ON s.CustomerId = c.Id"];
      sql := AppendLine(sql, lines, "INNER JOIN Branch b ON s.BranchId = b.Id");
      lines := lines + ["INNER JOIN Branch b ON s.BranchId = b.Id"];
      sql := AppendLine(sql, lines, "INNER JOIN SaleItem si ON s.Id = si.SaleId");
      lines := lines + ["INNER JOIN SaleItem si ON s.Id = si.SaleId"];
      assert lines == SaleSelectLines;
      sql := AppendClauses(sql, lines, SaleFallbackOrder, conditions, orderByFields, skip, take);
    }

    /** The parameter bag handed to the query runner. */
    function Parameters(): (r: map<string, SqlValue>)
      reads this
      ensures r == parameters
    {
      parameters
    }
  }
}
