/**
 * The prize table of the lucky draw: four categories, each with a display
 * name, a display value, a wheel colour and a fixed cap on its winners.
 */
module Prizes {

  /** The keys of the prize table; the category selector offers exactly these. */
  datatype Category = Grand | Second | Third | Consolation

  datatype Prize = Prize(name: string, value: string, color: string, maxWinners: nat)

  function PrizeOf(c: Category): (p: Prize)
    ensures p.maxWinners >= 1
  {
    match c
    case Grand => Prize("Diamond Ring", "$5,000", "#FFD700", 1)
    case Second => Prize("Gold Necklace", "$3,000", "#C0C0C0", 1)
    case Third => Prize("Silver Bracelet", "$1,500", "#CD7F32", 1)
    case Consolation => Prize("Shopping Voucher & Pearl Earrings", "$500", "#4CAF50", 10)
  }

  function MaxWinners(c: Category): nat {
    PrizeOf(c).maxWinners
  }

  /** The prize text stored in a winner record: name, then the value in parentheses. */
  function PrizeLabel(c: Category): string {
    PrizeOf(c).name + " (" + PrizeOf(c).value + ")"
  }

  /** The statistics panel's hard-coded number of prizes. */
  const TOTAL_PRIZES: int := 13

  /** The hard-coded total is the sum of the four caps of the table. */
  function TotalCapacity(): (n: nat)
    ensures n == TOTAL_PRIZES
  {
    MaxWinners(Grand) + MaxWinners(Second) + MaxWinners(Third) + MaxWinners(Consolation)
  }
}
