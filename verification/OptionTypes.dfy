/** Option contracts and the snapshots taken of them. F is the type of a computed number: a
    real where it is computed, eight opaque bytes where it is only carried. */
module OptionTypes {
  import opened Words
  import opened Books

  datatype OptionType = Call | Put

  datatype OptionContractKey =
    OptionContractKey(underlying: uint64, expiryDate: uint32, strikePrice: uint64, optionType: OptionType)

  /** The copies of the key's fields that a contract also carries are set from the key. */
  datatype OptionContract = OptionContract(key: OptionContractKey, lotSize: uint32, creationTimestamp: uint64)

  datatype BsmResult<F> = BsmResult(price: F, delta: F, gamma: F, vega: F, theta: F, rho: F, impliedVolatility: F)

  datatype OptionContractSnapshot<F> = OptionContractSnapshot(contract: OptionContract, bbo: Bbo, pricing: BsmResult<F>)

  datatype AggregatedOptionSnapshot<F> = AggregatedOptionSnapshot(
    underlying: uint64, spot: Bbo, spotTimestamp: uint64, contracts: seq<OptionContractSnapshot<F>>)

  const MAX_CONTRACTS_PER_CHAIN: nat := 128
}
