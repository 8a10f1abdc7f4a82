/** The values the deal service works on: lookup codes, the deal row with its payments and
    positioner decision, and the reference tables a request reads. */
module Domain {

  datatype Option<+T> = None | Some(value: T)

  datatype DealState = Draft | Waiting | Approved | Rejected | Executed | Cancelled

  datatype DealType = Tod | Tom | Spot | Forward

  datatype ValidationStatus = NotValidated | Valid | Invalid

  datatype Operation = Buy | Sell

  datatype Direction = In | Out

  datatype Decision = Approve | ReturnForEdit | Reject

  datatype Role = TraderRole | PositionerRole | AuditorRole | AdminRole

  datatype User = User(id: string, role: Role)

  type DealId = string

  /** Days are numbered consecutively; a day divisible by seven is a Monday. */
  type Day = int

  /** A Numeric(18, s) column holds at most eighteen decimal digits. Amounts are counted in
      hundredths and rates in millionths, so both columns have the same bound. */
  const NUMERIC_LIMIT := 1_000_000_000_000_000_000

  predicate FitsNumeric(x: int) {
    -NUMERIC_LIMIT < x < NUMERIC_LIMIT
  }

  /** What a trader agrees: the columns a PATCH may change, apart from the value date. */
  datatype Terms = Terms(
    tradeDate: Day,
    dealType: DealType,
    operation: Operation,
    buy: string,
    sell: string,
    amount: int,
    rate: int,
    counterparty: string)

  datatype CalculatedPayment = CalculatedPayment(
    amount: int,
    currency: string,
    direction: Direction,
    valueDate: Day)

  datatype Payment = Payment(
    amount: int,
    currency: string,
    account: Option<string>,
    direction: Direction,
    valueDate: Option<Day>)

  datatype Solution = Solution(decision: Decision, comment: Option<string>, positioner: string)

  datatype Deal = Deal(
    terms: Terms,
    valueDate: Option<Day>,
    state: DealState,
    status: ValidationStatus,
    trader: string,
    positioner: Option<string>,
    solution: Option<Solution>,
    payments: seq<Payment>)

  datatype Currency = Currency(code: string, name: string, decimalPlaces: int)

  datatype Counterparty = Counterparty(
    id: string,
    name: string,
    bic: Option<string>,
    country: Option<string>,
    active: bool)

  datatype DealLimit = DealLimit(
    id: int,
    counterparty: Option<string>,
    currency: Option<string>,
    maxAmount: int,
    active: bool)

  datatype NostroAccount = NostroAccount(
    id: string,
    currency: string,
    bank: string,
    number: string,
    active: bool)

  /** The reference tables as one request sees them. Tables that the queries order by primary
      key are sequences in that order. */
  datatype Nsi = Nsi(
    counterparties: map<string, Counterparty>,
    currencies: map<string, Currency>,
    nostros: seq<NostroAccount>,
    calendar: map<Day, bool>,
    limits: seq<DealLimit>)
}
