/**
 * The FluentValidation rule sets of the commands. Every rule runs (no cascade
 * stop); the messages come out in rule order, and a `RuleForEach` rule yields the
 * messages of the first item, then of the second, and so on.
 */
module Validators {
  import opened Common
  import opened Domain
  import opened Commands

  const SaleDateRequired := "Sale date is required."
  const CustomerIdPositive := "Customer ID must be greater than zero."
  const BranchIdPositive := "Branch ID must be greater than zero."
  const ItemsRequired := "At least one sale item is required."
  const ProductIdPositive := "Product ID must be greater than zero."
  const QuantityPositive := "Quantity must be greater than zero."
  const ItemUnitPriceNonNegative := "Unit price must be greater than or equal to zero."
  const DiscountNonNegative := "Discount must be greater than or equal to zero."
  const SaleIdPositive := "Sale ID must be greater than zero."
  const ProductNameRequired := "Product name is required."
  const ProductNameTooLong := "Product name cannot exceed 100 characters."
  const UnitPricePositive := "Unit price must be greater than zero."

  const MaxProductNameLength := 100

  /** The messages an item rule set can produce. */
  const ItemMessages: set<string> :=
    {ProductIdPositive, QuantityPositive, ItemUnitPriceNonNegative, DiscountNonNegative}

  // ---------------------------------------------------------------- sale items

  ghost predicate ValidSaleItem(item: SaleItemDto) {
    item.productId > 0 && item.quantity > 0 && item.unitPrice >= 0.0 && item.discount >= 0.0
  }

  /** `CreateSaleItemDtoValidator` and `UpdateSaleItemDtoValidator` (identical rule sets). */
  function SaleItemErrors(item: SaleItemDto): (r: seq<string>)
    ensures r == [] <==> ValidSaleItem(item)
    ensures |r| <= 4
  {
    (if item.productId > 0 then [] else [ProductIdPositive])
    + (if item.quantity > 0 then [] else [QuantityPositive])
    + (if item.unitPrice >= 0.0 then [] else [ItemUnitPriceNonNegative])
    + (if item.discount >= 0.0 then [] else [DiscountNonNegative])
  }

  /** Each item rule reports its own message exactly when the item breaks it, and nothing else is reported. */
  lemma SaleItemErrorsMeaning(item: SaleItemDto)
    ensures ProductIdPositive in SaleItemErrors(item) <==> item.productId <= 0
    ensures QuantityPositive in SaleItemErrors(item) <==> item.quantity <= 0
    ensures ItemUnitPriceNonNegative in SaleItemErrors(item) <==> item.unitPrice < 0.0
    ensures DiscountNonNegative in SaleItemErrors(item) <==> item.discount < 0.0
    ensures forall m :: m in SaleItemErrors(item) ==> m in ItemMessages
  {
    assert |ProductIdPositive| == 37 && |QuantityPositive| == 35;
    assert |ItemUnitPriceNonNegative| == 49 && |DiscountNonNegative| == 47;
  }

  /** `RuleForEach(x => x.Items)`: the item messages, item after item. */
  function ItemsErrors(items: seq<SaleItemDto>): seq<string>
    decreases |items|
  {
    if items == [] then []
    else ItemsErrors(items[..|items| - 1]) + SaleItemErrors(items[|items| - 1])
  }

  /** A message is reported for the list iff some item reports it. */
  lemma {:induction false} ItemsErrorsContains(items: seq<SaleItemDto>, m: string)
    ensures m in ItemsErrors(items) <==> exists i :: 0 <= i < |items| && m in SaleItemErrors(items[i])
    decreases |items|
  {
    if items != [] {
      var n := |items| - 1;
      var init := items[..n];
      ItemsErrorsContains(init, m);
      assert ItemsErrors(items) == ItemsErrors(init) + SaleItemErrors(items[n]);
      if m in SaleItemErrors(items[n]) {
        assert 0 <= n < |items| && m in SaleItemErrors(items[n]);
      } else if m in ItemsErrors(init) {
        var i :| 0 <= i < |init| && m in SaleItemErrors(init[i]);
        assert items[i] == init[i];
      } else {
        forall i | 0 <= i < |items| ensures m !in SaleItemErrors(items[i]) {
          if i < n {
            assert items[i] == init[i];
          }
        }
      }
    }
  }

  /** The item list raises no message iff every item is valid. */
  lemma {:induction false} ItemsErrorsEmpty(items: seq<SaleItemDto>)
    ensures ItemsErrors(items) == [] <==> forall i :: 0 <= i < |items| ==> ValidSaleItem(items[i])
    decreases |items|
  {
    if items != [] {
      var init := items[..|items| - 1];
      ItemsErrorsEmpty(init);
      assert forall i :: 0 <= i < |init| ==> items[i] == init[i];
    }
  }

  /** Each item rule reports its message for the list iff some item breaks it; no other message appears. */
  lemma ItemsErrorsMeaning(items: seq<SaleItemDto>)
    ensures ProductIdPositive in ItemsErrors(items) <==> exists i :: 0 <= i < |items| && items[i].productId <= 0
    ensures QuantityPositive in ItemsErrors(items) <==> exists i :: 0 <= i < |items| && items[i].quantity <= 0
    ensures ItemUnitPriceNonNegative in ItemsErrors(items) <==> exists i :: 0 <= i < |items| && items[i].unitPrice < 0.0
    ensures DiscountNonNegative in ItemsErrors(items) <==> exists i :: 0 <= i < |items| && items[i].discount < 0.0
    ensures forall m :: m in ItemsErrors(items) ==> m in ItemMessages
  {
    forall i | 0 <= i < |items|
      ensures ProductIdPositive in SaleItemErrors(items[i]) <==> items[i].productId <= 0
      ensures QuantityPositive in SaleItemErrors(items[i]) <==> items[i].quantity <= 0
      ensures ItemUnitPriceNonNegative in SaleItemErrors(items[i]) <==> items[i].unitPrice < 0.0
      ensures DiscountNonNegative in SaleItemErrors(items[i]) <==> items[i].discount < 0.0
      ensures forall m :: m in SaleItemErrors(items[i]) ==> m in ItemMessages
    {
      SaleItemErrorsMeaning(items[i]);
    }
    ItemsErrorsContains(items, ProductIdPositive);
    ItemsErrorsContains(items, QuantityPositive);
    ItemsErrorsContains(items, ItemUnitPriceNonNegative);
    ItemsErrorsContains(items, DiscountNonNegative);
    forall m | m in ItemsErrors(items) ensures m in ItemMessages {
      ItemsErrorsContains(items, m);
    }
  }

  /** No message of the command-level rules is also an item message. */
  lemma CommandMessagesAreNotItemMessages()
    ensures SaleIdPositive !in ItemMessages
    ensures SaleDateRequired !in ItemMessages
    ensures CustomerIdPositive !in ItemMessages
    ensures BranchIdPositive !in ItemMessages
    ensures ItemsRequired !in ItemMessages
  {
    assert |SaleIdPositive| == 34 && |SaleDateRequired| == 22 && |CustomerIdPositive| == 38;
    assert |BranchIdPositive| == 36 && |ItemsRequired| == 35;
    assert |ProductIdPositive| == 37 && |QuantityPositive| == 35;
    assert |ItemUnitPriceNonNegative| == 49 && |DiscountNonNegative| == 47;
    assert ItemsRequired[0] != QuantityPositive[0];
  }

  /** A message reaches a command's list either from its own rules or from the item rules, never both. */
  lemma SplitMessages(head: seq<string>, items: seq<SaleItemDto>, m: string)
    requires forall h :: h in head ==> h !in ItemMessages
    ensures m in head + ItemsErrors(items) <==> m in head || m in ItemsErrors(items)
    ensures m in ItemMessages ==> (m in head + ItemsErrors(items) <==> m in ItemsErrors(items))
    ensures m !in ItemMessages ==> (m in head + ItemsErrors(items) <==> m in head)
  {
    ItemsErrorsMeaning(items);
  }

  // ---------------------------------------------------------------- create sale

  ghost predicate ValidCreateSale(c: CreateSaleCommand) {
    && c.saleDate != DefaultDateTime
    && c.customerId > 0
    && c.branchId > 0
    && |c.items| > 0
    && forall i :: 0 <= i < |c.items| ==> ValidSaleItem(c.items[i])
  }

  /** The command-level rules of `CreateSaleCommandValidator`, in declaration order. */
  function CreateSaleHeaderErrors(c: CreateSaleCommand): (r: seq<string>)
    ensures r == [] <==> c.saleDate != DefaultDateTime && c.customerId > 0 && c.branchId > 0 && |c.items| > 0
    ensures SaleDateRequired in r <==> c.saleDate == DefaultDateTime
    ensures CustomerIdPositive in r <==> c.customerId <= 0
    ensures BranchIdPositive in r <==> c.branchId <= 0
    ensures ItemsRequired in r <==> c.items == []
    ensures forall h :: h in r ==> h !in ItemMessages
  {
    CommandMessagesAreNotItemMessages();
    (if c.saleDate != DefaultDateTime then [] else [SaleDateRequired])
    + (if c.customerId > 0 then [] else [CustomerIdPositive])
    + (if c.branchId > 0 then [] else [BranchIdPositive])
    + (if |c.items| > 0 then [] else [ItemsRequired])
  }

  /**
   * `CreateSaleCommandValidator`: the command rules, then the item rules. A command
   * passes iff no rule fails, and the command messages come before every item message.
   */
  function ValidateCreateSale(c: CreateSaleCommand): (r: seq<string>)
    ensures r == [] <==> ValidCreateSale(c)
    ensures |CreateSaleHeaderErrors(c)| <= |r|
    ensures forall k :: 0 <= k < |CreateSaleHeaderErrors(c)| ==> r[k] !in ItemMessages
  {
    ItemsErrorsEmpty(c.items);
    CreateSaleHeaderErrors(c) + ItemsErrors(c.items)
  }

  /** Each command-level rule of the create command contributes its message exactly when it fails. */
  lemma CreateSaleHeaderMessages(c: CreateSaleCommand)
    ensures SaleDateRequired in ValidateCreateSale(c) <==> c.saleDate == DefaultDateTime
    ensures CustomerIdPositive in ValidateCreateSale(c) <==> c.customerId <= 0
    ensures BranchIdPositive in ValidateCreateSale(c) <==> c.branchId <= 0
    ensures ItemsRequired in ValidateCreateSale(c) <==> c.items == []
  {
    CommandMessagesAreNotItemMessages();
    var head := CreateSaleHeaderErrors(c);
    SplitMessages(head, c.items, SaleDateRequired);
    SplitMessages(head, c.items, CustomerIdPositive);
    SplitMessages(head, c.items, BranchIdPositive);
    SplitMessages(head, c.items, ItemsRequired);
  }

  /** Each item rule contributes its message to the create command exactly when some item breaks it. */
  lemma CreateSaleItemMessages(c: CreateSaleCommand)
    ensures ProductIdPositive in ValidateCreateSale(c) <==> exists i :: 0 <= i < |c.items| && c.items[i].productId <= 0
    ensures QuantityPositive in ValidateCreateSale(c) <==> exists i :: 0 <= i < |c.items| && c.items[i].quantity <= 0
    ensures ItemUnitPriceNonNegative in ValidateCreateSale(c) <==> exists i :: 0 <= i < |c.items| && c.items[i].unitPrice < 0.0
    ensures DiscountNonNegative in ValidateCreateSale(c) <==> exists i :: 0 <= i < |c.items| && c.items[i].discount < 0.0
  {
    ItemsErrorsMeaning(c.items);
    var head := CreateSaleHeaderErrors(c);
    SplitMessages(head, c.items, ProductIdPositive);
    SplitMessages(head, c.items, QuantityPositive);
    SplitMessages(head, c.items, ItemUnitPriceNonNegative);
    SplitMessages(head, c.items, DiscountNonNegative);
  }

  // ---------------------------------------------------------------- update sale

  ghost predicate ValidUpdateSale(c: UpdateSaleCommand) {
    && c.id > 0
    && c.saleDate.Some?
    && (c.customerId.Some? ==> c.customerId.value > 0)
    && (c.branchId.Some? ==> c.branchId.value > 0)
    && |c.items| > 0
    && forall i :: 0 <= i < |c.items| ==> ValidSaleItem(c.items[i])
  }

  /**
   * The command-level rules of `UpdateSaleCommandValidator`. A comparison rule
   * passes on a null value, so an absent customer or branch id is accepted.
   */
  function UpdateSaleHeaderErrors(c: UpdateSaleCommand): (r: seq<string>)
    ensures r == [] <==> && c.id > 0 && c.saleDate.Some?
                         && (c.customerId.Some? ==> c.customerId.value > 0)
                         && (c.branchId.Some? ==> c.branchId.value > 0) && |c.items| > 0
    ensures SaleIdPositive in r <==> c.id <= 0
    ensures SaleDateRequired in r <==> c.saleDate.None?
    ensures CustomerIdPositive in r <==> c.customerId.Some? && c.customerId.value <= 0
    ensures BranchIdPositive in r <==> c.branchId.Some? && c.branchId.value <= 0
    ensures ItemsRequired in r <==> c.items == []
    ensures forall h :: h in r ==> h !in ItemMessages
  {
    CommandMessagesAreNotItemMessages();
    assert |SaleIdPositive| == 34 && |SaleDateRequired| == 22 && |CustomerIdPositive| == 38;
    assert |BranchIdPositive| == 36 && |ItemsRequired| == 35;
    (if c.id > 0 then [] else [SaleIdPositive])
    + (if c.saleDate.Some? then [] else [SaleDateRequired])
    + (if c.customerId.None? || c.customerId.value > 0 then [] else [CustomerIdPositive])
    + (if c.branchId.None? || c.branchId.value > 0 then [] else [BranchIdPositive])
    + (if |c.items| > 0 then [] else [ItemsRequired])
  }

  /**
   * `UpdateSaleCommandValidator`: the command rules, then the item rules. A command
   * passes iff no rule fails, and the command messages come before every item message.
   */
  function ValidateUpdateSale(c: UpdateSaleCommand): (r: seq<string>)
    ensures r == [] <==> ValidUpdateSale(c)
    ensures |UpdateSaleHeaderErrors(c)| <= |r|
    ensures forall k :: 0 <= k < |UpdateSaleHeaderErrors(c)| ==> r[k] !in ItemMessages
  {
    ItemsErrorsEmpty(c.items);
    UpdateSaleHeaderErrors(c) + ItemsErrors(c.items)
  }

  /** Each command-level rule of the update command contributes its message exactly when it fails. */
  lemma UpdateSaleHeaderMessages(c: UpdateSaleCommand)
    ensures SaleIdPositive in ValidateUpdateSale(c) <==> c.id <= 0
    ensures SaleDateRequired in ValidateUpdateSale(c) <==> c.saleDate.None?
    ensures CustomerIdPositive in ValidateUpdateSale(c) <==> c.customerId.Some? && c.customerId.value <= 0
    ensures BranchIdPositive in ValidateUpdateSale(c) <==> c.branchId.Some? && c.branchId.value <= 0
    ensures ItemsRequired in ValidateUpdateSale(c) <==> c.items == []
  {
    CommandMessagesAreNotItemMessages();
    var head := UpdateSaleHeaderErrors(c);
    SplitMessages(head, c.items, SaleIdPositive);
    SplitMessages(head, c.items, SaleDateRequired);
    SplitMessages(head, c.items, CustomerIdPositive);
    SplitMessages(head, c.items, BranchIdPositive);
    SplitMessages(head, c.items, ItemsRequired);
  }

  /** Each item rule contributes its message to the update command exactly when some item breaks it. */
  lemma UpdateSaleItemMessages(c: UpdateSaleCommand)
    ensures ProductIdPositive in ValidateUpdateSale(c) <==> exists i :: 0 <= i < |c.items| && c.items[i].productId <= 0
    ensures QuantityPositive in ValidateUpdateSale(c) <==> exists i :: 0 <= i < |c.items| && c.items[i].quantity <= 0
    ensures ItemUnitPriceNonNegative in ValidateUpdateSale(c) <==> exists i :: 0 <= i < |c.items| && c.items[i].unitPrice < 0.0
    ensures DiscountNonNegative in ValidateUpdateSale(c) <==> exists i :: 0 <= i < |c.items| && c.items[i].discount < 0.0
  {
    ItemsErrorsMeaning(c.items);
    var head := UpdateSaleHeaderErrors(c);
    SplitMessages(head, c.items, ProductIdPositive);
    SplitMessages(head, c.items, QuantityPositive);
    SplitMessages(head, c.items, ItemUnitPriceNonNegative);
    SplitMessages(head, c.items, DiscountNonNegative);
  }

  // ---------------------------------------------------------------- products

  /**
   * `char.IsWhiteSpace`: the Unicode space, line and paragraph separators and
   * U+0009..U+000D, U+0085. Letters and digits are never white space.
   */
  function IsWhiteSpace(ch: char): (r: bool)
    ensures ch == ' ' || ch == '\t' || ch == '\n' || ch == '\r' ==> r
    ensures ('a' <= ch <= 'z') || ('A' <= ch <= 'Z') || ('0' <= ch <= '9') ==> !r
    ensures r ==> ch as int <= 0x3000
  {
    || ch == ' ' || ('\t' <= ch <= '\r') || ch == '\U{85}' || ch == '\U{A0}' || ch == '\U{1680}'
    || ('\U{2000}' <= ch <= '\U{200A}') || ch == '\U{2028}' || ch == '\U{2029}' || ch == '\U{202F}'
    || ch == '\U{205F}' || ch == '\U{3000}'
  }

  /**
   * `NotEmpty` on a string fails for the empty string and for white space only;
   * a string with a letter or a digit in it passes.
   */
  function IsBlank(s: string): (r: bool)
    ensures s == [] ==> r
    ensures (exists k :: 0 <= k < |s| && (('a' <= s[k] <= 'z') || ('A' <= s[k] <= 'Z') || ('0' <= s[k] <= '9'))) ==> !r
    ensures r ==> forall k :: 0 <= k < |s| ==> s[k] as int <= 0x3000
  {
    forall k :: 0 <= k < |s| ==> IsWhiteSpace(s[k])
  }

  /**
   * `string.Length`: the number of UTF-16 code units, so a character outside the
   * Basic Multilingual Plane (above U+FFFF) counts twice.
   */
  function Utf16Length(s: string): (r: nat)
    ensures |s| <= r <= 2 * |s|
    ensures (forall k :: 0 <= k < |s| ==> s[k] as int <= 0xFFFF) ==> r == |s|
    decreases |s|
  {
    if s == [] then 0
    else Utf16Length(s[..|s| - 1]) + (if s[|s| - 1] as int > 0xFFFF then 2 else 1)
  }

  /** A string of characters above U+FFFF has twice as many UTF-16 code units as characters. */
  lemma {:induction false} Utf16LengthAstral(s: string)
    requires forall k :: 0 <= k < |s| ==> s[k] as int > 0xFFFF
    ensures Utf16Length(s) == 2 * |s|
    decreases |s|
  {
    if s != [] {
      Utf16LengthAstral(s[..|s| - 1]);
    }
  }

  /** `MaximumLength(100)` on the product name, counted as `string.Length` counts. */
  predicate NameTooLong(name: string) {
    Utf16Length(name) > MaxProductNameLength
  }

  /** `CreateProductCommandValidator`: both name rules run, so a long blank name fails twice. */
  function ValidateCreateProduct(c: CreateProductCommand): (r: seq<string>)
    ensures r == [] <==> !IsBlank(c.productName) && !NameTooLong(c.productName) && c.unitPrice > 0.0
    ensures ProductNameRequired in r <==> IsBlank(c.productName)
    ensures ProductNameTooLong in r <==> NameTooLong(c.productName)
    ensures UnitPricePositive in r <==> c.unitPrice <= 0.0
    ensures |c.productName| > MaxProductNameLength ==> ProductNameTooLong in r
    ensures 2 * |c.productName| <= MaxProductNameLength ==> ProductNameTooLong !in r
  {
    (if IsBlank(c.productName) then [ProductNameRequired] else [])
    + (if NameTooLong(c.productName) then [ProductNameTooLong] else [])
    + (if c.unitPrice > 0.0 then [] else [UnitPricePositive])
  }

  /** A name of 51 emoji is 51 characters long but 102 UTF-16 code units, so it is rejected as too long. */
  lemma EmojiNameTooLong()
    ensures var name := seq(51, _ => '\U{1F600}');
      |name| == 51 && NameTooLong(name)
      && ProductNameTooLong in ValidateCreateProduct(CreateProductCommand(name, 10.0))
  {
    var name := seq(51, _ => '\U{1F600}');
    Utf16LengthAstral(name);
  }

  /**
   * The rules of `UpdateProductCommandValidator` as its unit tests exercise them: a
   * positive id, a product name that is not blank and at most 100 characters long,
   * and a positive unit price, each rule with its own message.
   */
  function ValidateUpdateProduct(c: UpdateProductCommand): (r: seq<string>)
    ensures r == [] <==> c.id > 0 && !IsBlank(c.productName) && !NameTooLong(c.productName) && c.unitPrice > 0.0
    ensures ProductIdPositive in r <==> c.id <= 0
    ensures ProductNameRequired in r <==> IsBlank(c.productName)
    ensures ProductNameTooLong in r <==> NameTooLong(c.productName)
    ensures UnitPricePositive in r <==> c.unitPrice <= 0.0
  {
    (if c.id > 0 then [] else [ProductIdPositive])
    + (if IsBlank(c.productName) then [ProductNameRequired] else [])
    + (if NameTooLong(c.productName) then [ProductNameTooLong] else [])
    + (if c.unitPrice > 0.0 then [] else [UnitPricePositive])
  }

  /** `DeleteProductCommandValidator`: one rule, so at most one message. */
  function ValidateDeleteProduct(c: DeleteProductCommand): (r: seq<string>)
    ensures r == [] <==> c.id > 0
    ensures r != [] ==> r == [ProductIdPositive]
    ensures |r| <= 1
  {
    if c.id > 0 then [] else [ProductIdPositive]
  }

  /** A valid update always carries items and a date: the update path never sees an empty item list. */
  lemma ValidUpdateCarriesItems(c: UpdateSaleCommand)
    requires ValidateUpdateSale(c) == []
    ensures |c.items| > 0 && c.saleDate.Some?
  {
  }
}
