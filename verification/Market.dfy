/** Values shared by the exchange, the market-data handler and the order-book engine. */
module Market {

  type U32 = x: int | 0 <= x < 0x1_0000_0000
  type U64 = x: int | 0 <= x < 0x1_0000_0000_0000_0000

  /** Number of values of a 64-bit word. */
  const WORD: nat := 0x1_0000_0000_0000_0000

  predicate IsPow2(n: nat) {
    n == 1 || (n > 0 && n % 2 == 0 && IsPow2(n / 2))
  }

  datatype Option<+T> = None | Some(value: T)

  datatype Side = Buy | Sell

  datatype MessageType = Add | Cancel | Modify | Trade

  /** One sequenced book update, as published on the feed. */
  datatype Message = Message(
    sequence: nat, timestamp: nat, orderId: U64, price: int, quantity: U32, kind: MessageType, side: Side)
}
