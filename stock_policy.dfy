/**
 * The stock policy of the product card (components.py:79-99): the optional
 * `stock_status` field is compared with the low-stock sentinel first and
 * with the out-of-stock sentinel second; anything else shows no banner.
 * The two sentinels live in a constants module that is not part of this
 * model, so they are parameters here.
 */
module StockPolicy {
  import Text
  import opened RecordParser

  datatype StockState = LowStock | OutOfStock | Unspecified

  /** The field the policy reads. */
  const StockStatusKey: string := "stock_status"

  /** `product.get("stock_status")`: the value when the key is present. */
  function StockStatus(product: Record): (status: Text.Option<string>)
    ensures status.Some? <==> StockStatusKey in product
    ensures status.Some? ==> status.value == product[StockStatusKey]
  {
    if StockStatusKey in product then Text.Some(product[StockStatusKey]) else Text.None
  }

  /** The three-way choice; the low-stock comparison is made first, so when
      both sentinels are equal the low-stock state wins. */
  function Classify(status: Text.Option<string>, lowSentinel: string, noneSentinel: string): (state: StockState)
    ensures state == LowStock <==> status == Text.Some(lowSentinel)
    ensures state == OutOfStock <==> status != Text.Some(lowSentinel) && status == Text.Some(noneSentinel)
    ensures state == Unspecified <==> status.None? || (status.value != lowSentinel && status.value != noneSentinel)
  {
    if status == Text.Some(lowSentinel) then LowStock
    else if status == Text.Some(noneSentinel) then OutOfStock
    else Unspecified
  }

  /** The state the card shows for a record. */
  function StockOf(product: Record, lowSentinel: string, noneSentinel: string): (state: StockState)
    ensures state == LowStock <==> StockStatusKey in product && product[StockStatusKey] == lowSentinel
    ensures state == OutOfStock <==>
              StockStatusKey in product && product[StockStatusKey] != lowSentinel && product[StockStatusKey] == noneSentinel
    ensures state == Unspecified <==>
              StockStatusKey !in product || (product[StockStatusKey] != lowSentinel && product[StockStatusKey] != noneSentinel)
  {
    Classify(StockStatus(product), lowSentinel, noneSentinel)
  }

  /** Only the `stock_status` field decides the state: changing any other
      field of the record leaves it as it was. */
  lemma StockIgnoresOtherFields(product: Record, key: string, value: string, lowSentinel: string, noneSentinel: string)
    requires key != StockStatusKey
    ensures StockOf(product[key := value], lowSentinel, noneSentinel) == StockOf(product, lowSentinel, noneSentinel)
  {
  }

  /** A record without the field, or with a value that is neither sentinel,
      gets no banner; in particular an empty record gets none. */
  lemma NoStatusNoBanner(product: Record, lowSentinel: string, noneSentinel: string)
    requires StockStatusKey !in product
          || (product[StockStatusKey] != lowSentinel && product[StockStatusKey] != noneSentinel)
    ensures StockOf(product, lowSentinel, noneSentinel) == Unspecified
  {
  }
}
