/** Ledger keys, entries and changes: the parts of xdr/ that meta/bundle.go looks at. */
module Ledger {

  /** The only kind of account id is an ed25519 public key. */
  datatype AccountId = Ed25519(key: seq<nat>) {
    predicate Equals(other: AccountId)
      ensures Equals(other) <==> this == other
    {
      key == other.key
    }
  }

  datatype Asset = Native | AlphaNum4(code: string, issuer: AccountId) | AlphaNum12(code: string, issuer: AccountId) {
    predicate Equals(other: Asset)
      ensures Equals(other) <==> this == other
    {
      match this
      case Native => other.Native?
      case AlphaNum4(code, issuer) => other.AlphaNum4? && code == other.code && issuer.Equals(other.issuer)
      case AlphaNum12(code, issuer) => other.AlphaNum12? && code == other.code && issuer.Equals(other.issuer)
    }
  }

  datatype LedgerKey =
    | AccountKey(accountId: AccountId)
    | DataKey(accountId: AccountId, name: string)
    | OfferKey(sellerId: AccountId, offerId: nat)
    | TrustLineKey(accountId: AccountId, asset: Asset)
  {
    /** The relation by which a bundle looks for changes is equality of keys. */
    predicate Equals(other: LedgerKey)
      ensures Equals(other) <==> this == other
    {
      match this
      case AccountKey(id) => other.AccountKey? && id.Equals(other.accountId)
      case DataKey(id, name) => other.DataKey? && id.Equals(other.accountId) && name == other.name
      case OfferKey(id, offerId) => other.OfferKey? && id.Equals(other.sellerId) && offerId == other.offerId
      case TrustLineKey(id, asset) => other.TrustLineKey? && id.Equals(other.accountId) && asset.Equals(other.asset)
    }
  }

  datatype EntryData =
    | AccountEntry(accountId: AccountId, balance: int, sequence: int)
    | DataEntry(accountId: AccountId, name: string, value: seq<nat>)
    | OfferEntry(sellerId: AccountId, offerId: nat, amount: int)
    | TrustLineEntry(accountId: AccountId, asset: Asset, balance: int, limit: int)

  datatype LedgerEntry = LedgerEntry(lastModified: nat, data: EntryData) {
    function Key(): LedgerKey {
      match data
      case AccountEntry(id, _, _) => AccountKey(id)
      case DataEntry(id, name, _) => DataKey(id, name)
      case OfferEntry(id, offerId, _) => OfferKey(id, offerId)
      case TrustLineEntry(id, asset, _, _) => TrustLineKey(id, asset)
    }
  }

  datatype Change =
    | Created(entry: LedgerEntry)
    | Updated(entry: LedgerEntry)
    | Removed(removed: LedgerKey)
    | State(entry: LedgerEntry)
  {
    function Key(): LedgerKey {
      match this
      case Created(e) => e.Key()
      case Updated(e) => e.Key()
      case Removed(k) => k
      case State(e) => e.Key()
    }
  }

  /** The entry is of the kind of the key, and has the fields that the key has. */
  predicate Names(key: LedgerKey, entry: EntryData) {
    match key
    case AccountKey(id) => entry.AccountEntry? && entry.accountId == id
    case DataKey(id, name) => entry.DataEntry? && entry.accountId == id && entry.name == name
    case OfferKey(id, offerId) => entry.OfferEntry? && entry.sellerId == id && entry.offerId == offerId
    case TrustLineKey(id, asset) => entry.TrustLineEntry? && entry.accountId == id && entry.asset == asset
  }

  /** The change is about the entry with this key. */
  predicate IsAbout(change: Change, key: LedgerKey) {
    if change.Removed? then change.removed == key else Names(key, change.entry.data)
  }

  /** Entries are the same for a bundle exactly if their kind and these fields agree. */
  predicate SameEntry(a: EntryData, b: EntryData) {
    match a
    case AccountEntry(id, _, _) => b.AccountEntry? && b.accountId == id
    case DataEntry(id, name, _) => b.DataEntry? && b.accountId == id && b.name == name
    case OfferEntry(id, offerId, _) => b.OfferEntry? && b.sellerId == id && b.offerId == offerId
    case TrustLineEntry(id, asset, _, _) => b.TrustLineEntry? && b.accountId == id && b.asset == asset
  }

  lemma KeyOfEntry(e: LedgerEntry, key: LedgerKey)
    ensures e.Key() == key <==> Names(key, e.data)
  {
  }

  lemma EntriesShareKey(a: LedgerEntry, b: LedgerEntry)
    ensures a.Key() == b.Key() <==> SameEntry(a.data, b.data)
  {
  }

  lemma KeyOfChange(change: Change, key: LedgerKey)
    ensures change.Key() == key <==> IsAbout(change, key)
  {
  }
}
