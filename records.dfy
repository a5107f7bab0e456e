/**
 * The rows of the three datasets the dashboard loads. Money amounts are
 * whole dollars; `None` is the NaN a failed numeric coercion leaves behind.
 */
module Records {
  import opened Wrappers

  /** One campaign-finance report of one official for one report period. */
  datatype FinanceRecord = FinanceRecord(
    name: string,
    position: string,
    reportPeriod: string,
    year: int,
    raised: Option<int>,
    spent: Option<int>,
    loans: Option<int>,
    cashOnHand: Option<int>)

  /** A lobbyist registration; only its category is analysed. */
  datatype LobbyistRecord = LobbyistRecord(lobbyistName: string, client: string, category: Option<string>)

  /** A county vendor; only its category is analysed. */
  datatype VendorRecord = VendorRecord(vendorName: string, category: Option<string>, department: string)

  /** The money columns as accessors, for the operations that take a column by name. */
  function Raised(r: FinanceRecord): Option<int> { r.raised }
  function Spent(r: FinanceRecord): Option<int> { r.spent }
  function CashOnHand(r: FinanceRecord): Option<int> { r.cashOnHand }
}
