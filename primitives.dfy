/** Identifiers shared by the pallets: accounts, currencies and vaults. */
module Primitives {

  type AccountId = nat

  type CurrencyId = nat

  datatype VaultCurrencyPair = VaultCurrencyPair(collateral: CurrencyId, wrapped: CurrencyId)

  /** A vault is identified by its operator account and its currency pair. */
  datatype VaultId = VaultId(accountId: AccountId, currencies: VaultCurrencyPair) {

    function CollateralCurrency(): CurrencyId {
      currencies.collateral
    }

    function WrappedCurrency(): CurrencyId {
      currencies.wrapped
    }
  }

  /** The arithmetic failures of checked fixed-point operations. */
  datatype ArithmeticError = Overflow | Underflow | DivisionByZero | TryIntoIntError

  /** A storage map read with `ValueQuery`: a missing key reads as zero. */
  function GetOrZero<K>(m: map<K, int>, k: K): int {
    if k in m then m[k] else 0
  }
}
