/** The two tables of the database the credit core reads and writes: the
    credit ledger (`credit`) and purchase orders (`order`). */
module Schema {
  import opened Wrappers

  type UserId = string

  /** `transaction_type`: the code writes only these two values */
  datatype TransactionType = Grant | Consume

  /** One row of the `credit` table. `createdAt` is not a field: a row's
      position in the ledger sequence stands for its creation order. */
  datatype CreditRecord = CreditRecord(
    id: string,
    userId: UserId,
    transactionType: TransactionType,
    credits: int,
    remainingCredits: int,
    description: string,
    orderNo: Option<string>)

  /** The whole `credit` table, oldest row first */
  type Ledger = seq<CreditRecord>

  /** `status`: the code writes `pending` and `paid`; `failed` is the third
      value the order lifecycle names */
  datatype OrderStatus = Pending | Paid | Failed

  /** One row of the `order` table. `paidAt` is a clock reading supplied by
      the caller; `createdAt`/`updatedAt` are not modelled. */
  datatype Order = Order(
    id: string,
    orderNo: string,
    userId: UserId,
    status: OrderStatus,
    amount: int,
    currency: string,
    productId: Option<string>,
    creditsAmount: int,
    paymentSessionId: Option<string>,
    paidAt: Option<int>)

  /** The `order` table keyed by its unique `order_no` column */
  type Orders = map<string, Order>
}
