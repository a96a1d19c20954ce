/** The payment protocols that the daemons know. */
module Protocols {
  datatype ProtocolId = Zcash | Ethereum

  /** The order in which the key daemon tries them. */
  const ORDER: seq<ProtocolId> := [Zcash, Ethereum]

  function Name(id: ProtocolId): string {
    match id
    case Zcash => "Zcash"
    case Ethereum => "Ethereum"
  }
}
